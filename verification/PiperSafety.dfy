/** Every step of the runtime keeps the invariant. */
module PiperSafety {
  import opened PiperState
  import opened PiperSteps
  import opened PiperFrames

  lemma RunnerFacts(s: State, w: nat)
    requires Inv(s) && Works(s, w)
    ensures WorkerOk(s, w) && InWindow(s, IterAt(s, w)) && IterOk(s, IterAt(s, w)) && WaitsOk(s, IterAt(s, w))
    ensures IterAt(s, w) + 1 <= Started(s) ==> WaitsOk(s, IterAt(s, w) + 1)
    ensures !LeftFreed(s, IterAt(s, w)) ==> InWindow(s, IterAt(s, w) - 1) && IterOk(s, IterAt(s, w) - 1)
  {
    assert WorkerOk(s, w);
    var n := IterAt(s, w);
    assert IterOk(s, n) && WaitsOk(s, n);
    assert n + 1 <= Started(s) ==> WaitsOk(s, n + 1);
    if !LeftFreed(s, n) {
      LeftIsInWindow(s, n);
      assert IterOk(s, n - 1);
    }
  }

  lemma ExiterFacts(s: State, w: nat)
    requires Inv(s) && Exits(s, w)
    ensures WorkerOk(s, w) && InWindow(s, IterAt(s, w)) && IterOk(s, IterAt(s, w)) && WaitsOk(s, IterAt(s, w))
    ensures !LeftFreed(s, IterAt(s, w)) ==> InWindow(s, IterAt(s, w) - 1) && IterOk(s, IterAt(s, w) - 1)
  {
    assert WorkerOk(s, w);
    var n := IterAt(s, w);
    assert IterOk(s, n) && WaitsOk(s, n);
    if !LeftFreed(s, n) {
      LeftIsInWindow(s, n);
      assert IterOk(s, n - 1);
    }
  }

  /** Writing block n shows in no other block of the window. */
  lemma Blocks(s: State, n: int, b: Block)
    requires |s.ring| > 0 && InWindow(s, n)
    ensures forall m {:trigger Blk(SetBlk(s, n, b), m)} | InWindow(s, m) :: Blk(SetBlk(s, n, b), m) == if m == n then b else Blk(s, m)
  {
    forall m | InWindow(s, m) ensures Blk(SetBlk(s, n, b), m) == if m == n then b else Blk(s, m) {
      SetBlkFrame(s, n, b, m);
    }
  }

  // ----------------------------------------------------------------- quiet steps

  /** Iteration n goes to phase p and its stage counters to stage and cached. */
  function Moved(s: State, n: int, p: Phase, stage: int, cached: int): State
    requires |s.ring| > 0 && 1 <= n <= Started(s)
  {
    SetPhase(SetBlk(s, n, Blk(s, n).(stage := stage, cachedLeft := cached)), n, p)
  }

  lemma MovedIsQuiet(s: State, n: int, p: Phase, stage: int, cached: int)
    requires |s.ring| >= 2 && 1 <= n <= Started(s) && InWindow(s, n) && SamePart(PhaseOf(s, n), p)
    ensures Quiet(s, Moved(s, n, p, stage, cached), n)
    ensures PhaseOf(Moved(s, n, p, stage, cached), n) == p
    ensures Blk(Moved(s, n, p, stage, cached), n) == Blk(s, n).(stage := stage, cachedLeft := cached)
  {
    var s1 := SetBlk(s, n, Blk(s, n).(stage := stage, cachedLeft := cached));
    Blocks(s, n, Blk(s, n).(stage := stage, cachedLeft := cached));
    var s' := Moved(s, n, p, stage, cached);
    assert forall m :: Blk(s', m) == Blk(s1, m);
  }

  lemma AdvanceKeepsInv(s: State, w: nat, stage: int)
    requires Inv(s) && Can(s, Advance(w, stage))
    ensures Inv(Do(s, Advance(w, stage)))
  {
    RunnerFacts(s, w);
    var n := IterAt(s, w);
    var s' := Moved(s, n, Working(false), stage, Blk(s, n).cachedLeft);
    MovedIsQuiet(s, n, Working(false), stage, Blk(s, n).cachedLeft);
    assert s' == Do(s, Advance(w, stage));
    QuietStep(s, s', n);
  }

  lemma BeginWaitKeepsInv(s: State, w: nat, stage: int)
    requires Inv(s) && Can(s, BeginWait(w, stage))
    ensures Inv(Do(s, BeginWait(w, stage)))
  {
    RunnerFacts(s, w);
    var n := IterAt(s, w);
    MovedIsQuiet(s, n, Working(true), stage, Blk(s, n).cachedLeft);
    var s' := Moved(s, n, Working(true), stage, Blk(s, n).cachedLeft);
    assert s' == Do(s, BeginWait(w, stage));
    QuietStep(s, s', n);
  }

  lemma ReadLeftKeepsInv(s: State, w: nat)
    requires Inv(s) && Can(s, ReadLeft(w))
    ensures Inv(Do(s, ReadLeft(w)))
  {
    RunnerFacts(s, w);
    var n := IterAt(s, w);
    MovedIsQuiet(s, n, Working(true), Blk(s, n).stage, Blk(s, n - 1).stage);
    var s' := Moved(s, n, Working(true), Blk(s, n).stage, Blk(s, n - 1).stage);
    assert s'.phases == s.phases;
    assert s' == Do(s, ReadLeft(w));
    QuietStep(s, s', n);
  }

  /** A wait ends only when the left iteration is past the stage waited for. */
  lemma WaitIsSafe(s: State, w: nat)
    requires Inv(s) && Can(s, EndWait(w))
    ensures InWindow(s, IterAt(s, w) - 1)
    ensures Blk(s, IterAt(s, w) - 1).stage > Blk(s, IterAt(s, w)).stage
  {
    RunnerFacts(s, w);
  }

  lemma EndWaitKeepsInv(s: State, w: nat)
    requires Inv(s) && Can(s, EndWait(w))
    ensures Inv(Do(s, EndWait(w)))
  {
    RunnerFacts(s, w);
    WaitIsSafe(s, w);
    var n := IterAt(s, w);
    MovedIsQuiet(s, n, Working(false), Blk(s, n).stage, Blk(s, n).cachedLeft);
    var s' := Moved(s, n, Working(false), Blk(s, n).stage, Blk(s, n).cachedLeft);
    assert s'.ring == s.ring;
    assert s' == Do(s, EndWait(w));
    QuietStep(s, s', n);
  }

  lemma LeaveKeepsInv(s: State, w: nat)
    requires Inv(s) && Can(s, Leave(w))
    ensures Inv(Do(s, Leave(w)))
  {
    RunnerFacts(s, w);
    var n := IterAt(s, w);
    MovedIsQuiet(s, n, Leaving, POST_CLEANUP_STAGE, Blk(s, n).cachedLeft);
    var s' := Moved(s, n, Leaving, POST_CLEANUP_STAGE, Blk(s, n).cachedLeft);
    assert s' == Do(s, Leave(w));
    QuietStep(s, s', n);
  }

  lemma FinStageKeepsInv(s: State, w: nat)
    requires Inv(s) && Can(s, FinStage(w))
    ensures Inv(Do(s, FinStage(w)))
  {
    RunnerFacts(s, w);
    var n := IterAt(s, w);
    MovedIsQuiet(s, n, FinStaged, FINISH_STAGE, Blk(s, n).cachedLeft);
    var s' := Moved(s, n, FinStaged, FINISH_STAGE, Blk(s, n).cachedLeft);
    assert s' == Do(s, FinStage(w));
    QuietStep(s, s', n);
  }

  lemma ExitStageKeepsInv(s: State, w: nat)
    requires Inv(s) && Can(s, ExitStage(w))
    ensures Inv(Do(s, ExitStage(w)))
  {
    ExiterFacts(s, w);
    var n := IterAt(s, w);
    MovedIsQuiet(s, n, ExitStaged, FINISH_STAGE, Blk(s, n).cachedLeft);
    var s' := Moved(s, n, ExitStaged, FINISH_STAGE, Blk(s, n).cachedLeft);
    assert s' == Do(s, ExitStage(w));
    QuietStep(s, s', n);
  }

  // --------------------------------------------------- leaving without having been stolen from

  lemma PopKeepsInv(s: State, w: nat)
    requires Inv(s) && Can(s, PopIteration(w))
    ensures Inv(Do(s, PopIteration(w)))
  {
    RunnerFacts(s, w);
    var n, s', x := IterAt(s, w), Do(s, PopIteration(w)), Worker(RunsExit(IterAt(s, w)), NoParent, false);
    assert forall m :: Blk(s', m) == Blk(s, m);
    assert OnlyNear(s, s', n);
    if InWindow(s, n - 1) { assert IterOk(s, n - 1); }
    NearIters(s, s', n);
    forall m | InWindow(s, m) && 1 <= m <= Started(s) && m != n ensures RunnerMoves(s, s', x, m) {
      assert PhaseOf(s', m) == PhaseOf(s, m);
    }
    MoverStep(s, s', n, w, x);
  }

  /** Freeing the left block: iteration n goes on to a phase in which it has done so. */
  function LeftGone(s: State, n: int, p: Phase): State
    requires |s.ring| > 0 && 1 <= n <= Started(s)
  {
    SetPhase(DoFreeLeft(s, n), n, p)
  }

  lemma LeftGoneBlocks(s: State, n: int, p: Phase)
    requires |s.ring| >= 2 && 1 <= n <= Started(s) && InWindow(s, n) && InWindow(s, n - 1)
    requires !FreedLeft(PhaseOf(s, n)) && FreedLeft(p) && !p.Done? && (StageDone(PhaseOf(s, n)) ==> StageDone(p))
    ensures OnlyNear(s, LeftGone(s, n, p), n) && PhaseOf(LeftGone(s, n, p), n) == p
    ensures forall m {:trigger Blk(LeftGone(s, n, p), m)} | InWindow(s, m) ::
              Blk(LeftGone(s, n, p), m) == if m == n - 1 then Freed(Blk(s, n - 1)) else Blk(s, m)
  {
    var s1, s' := DoFreeLeft(s, n), LeftGone(s, n, p);
    Blocks(s, n - 1, Freed(Blk(s, n - 1)));
    assert forall m :: Blk(s', m) == Blk(s1, m);
  }

  lemma LeftGoneIters(s: State, n: int, p: Phase)
    requires Inv(s) && 1 <= n <= Started(s) && InWindow(s, n) && InWindow(s, n - 1)
    requires (PhaseOf(s, n).Leaving? && p == FinFreedLeft && Blk(s, n).status.PromotedActive?)
          || (PhaseOf(s, n).ExitStaged? && p == ExitFreedLeft && n == Started(s))
    ensures OnlyNear(s, LeftGone(s, n, p), n) && ItersOk(LeftGone(s, n, p))
  {
    LeftGoneBlocks(s, n, p);
    var s' := LeftGone(s, n, p);
    assert IterOk(s, n) && IterOk(s, n - 1) && WaitsOk(s, n);
    assert PhaseOf(s', n - 1) == PhaseOf(s, n - 1);
    assert n - 2 <= Started(s) ==> PhaseOf(s', n - 2) == PhaseOf(s, n - 2);
    if n + 1 <= Started(s) {
      assert WaitsOk(s, n + 1) && PhaseOf(s', n + 1) == PhaseOf(s, n + 1);
      assert n + 2 <= Started(s) ==> PhaseOf(s', n + 2) == PhaseOf(s, n + 2);
    }
    if InWindow(s, n + 1) { assert IterOk(s, n + 1); }
    NearIters(s, s', n);
  }

  /** Nobody runs an iteration whose block has just been given up. */
  lemma LeftGoneRunners(s: State, n: int, p: Phase, x: Worker, m: int)
    requires Inv(s) && 1 <= n <= Started(s) && InWindow(s, n) && InWindow(s, n - 1)
    requires !FreedLeft(PhaseOf(s, n)) && FreedLeft(p) && !p.Done? && (StageDone(PhaseOf(s, n)) ==> StageDone(p))
    requires InWindow(s, m) && 1 <= m <= Started(s) && m != n && !Runs(m)(x)
    ensures RunnerMoves(s, LeftGone(s, n, p), x, m)
  {
    LeftGoneBlocks(s, n, p);
    assert IterOk(s, m);
    assert PhaseOf(LeftGone(s, n, p), m) == PhaseOf(s, m);
  }

  lemma ExitFreeLeftKeepsInv(s: State, w: nat)
    requires Inv(s) && Can(s, ExitFreeLeft(w))
    ensures Inv(Do(s, ExitFreeLeft(w)))
  {
    ExiterFacts(s, w);
    var n, s', x := IterAt(s, w), Do(s, ExitFreeLeft(w)), s.workers[w];
    LeftGoneBlocks(s, n, ExitFreedLeft);
    LeftGoneIters(s, n, ExitFreedLeft);
    forall m | InWindow(s, m) && 1 <= m <= Started(s) && m != n ensures RunnerMoves(s, s', x, m) {
      LeftGoneRunners(s, n, ExitFreedLeft, x, m);
    }
    assert s'.workers == s.workers[w := x];
    MoverStep(s, s', n, w, x);
  }

  /** Control waits for the block of one iteration only. */
  lemma CounterIsZeroIff(s: State, m: int)
    requires Inv(s) && InWindow(s, m)
    ensures Blk(s, m).counter >= 0
    ensures Blk(s, m).counter == 0 <==> OwnFreed(s, m) && LeftFreed(s, m + 1) && Arrived(s, m)
    ensures !OwnFreed(s, m) || !LeftFreed(s, m + 1) ==> Blk(s, m).counter >= CLEANUP_FINISH_ITER_VAL
    ensures s.pc.Blocked? || s.pc.Past? ==> InWindow(s, Started(s) + 1 - |s.ring|)
  {
    assert IterOk(s, m);
  }

  lemma FlaggedIffDue(s: State, n: int, w: nat)
    requires Inv(s) && 1 <= n <= Started(s) && InWindow(s, n) && InWindow(s, n - 1)
    requires PhaseOf(s, n).Leaving?
    requires w < |s.workers| && s.workers[w].task == RunsIter(n)
    ensures var s', x := LeftGone(s, n, FinFreedLeft), s.workers[w];
            var x' := x.(parentResume := Flagged(Freed(Blk(s, n - 1)), x.parentResume));
            && (ThrottleDue(s') <==> ThrottleDue(s) || x'.parentResume != x.parentResume)
            && (x'.parentResume != x.parentResume ==> s.pc.Blocked? && !ThrottleDue(s) && x.parentResume.NoParent?)
            && (s.pc.Past? ==> Blk(s', Started(s) + 1 - |s.ring|).counter == 0)
  {
    LeftGoneBlocks(s, n, FinFreedLeft);
    var next := Started(s) + 1 - |s.ring|;
    CounterIsZeroIff(s, n - 1);
    assert IterOk(s, n - 1) && WorkerOk(s, w);
    if s.pc.Blocked? || s.pc.Past? { assert InWindow(s, next); }
    if ResumesThrottled(s.workers[w]) { CountHas(s.workers, w, ResumesThrottled); }
  }

  lemma FinFreeLeftShape(s: State, w: nat)
    requires Inv(s) && Can(s, FinFreeLeft(w))
    ensures var n := IterAt(s, w);
            var g := LeftGone(s, n, FinFreedLeft);
            var x := s.workers[w].(parentResume := Flagged(Freed(Blk(s, n - 1)), s.workers[w].parentResume));
            && InWindow(s, n) && InWindow(s, n - 1) && Blk(s, n).status.PromotedActive?
            && DoFinFreeLeft(s, w) == g.(workers := s.workers[w := x])
  {
    RunnerFacts(s, w);
    var n := IterAt(s, w);
    Blocks(s, n - 1, Freed(Blk(s, n - 1)));
  }

  /** The worker is told to resume the control frame exactly if this was the last
      thing that a control frame suspended at the throttle was waiting for. */
  lemma FinFreeLeftKeepsInv(s: State, w: nat)
    requires Inv(s) && Can(s, FinFreeLeft(w))
    ensures Inv(Do(s, FinFreeLeft(w)))
  {
    var n, s' := IterAt(s, w), DoFinFreeLeft(s, w);
    FinFreeLeftShape(s, w);
    LeftGoneIters(s, n, FinFreedLeft);
    FinFreeLeftMoves(s, w);
    FinFreeLeftBalanced(s, w);
    ItersIgnoreWorkers(LeftGone(s, n, FinFreedLeft), s');
    MoverStep(s, s', n, w, s'.workers[w]);
  }

  lemma FinFreeLeftMoves(s: State, w: nat)
    requires Inv(s) && Can(s, FinFreeLeft(w))
    ensures Moves(s, DoFinFreeLeft(s, w), IterAt(s, w), w, DoFinFreeLeft(s, w).workers[w])
  {
    var n, s' := IterAt(s, w), DoFinFreeLeft(s, w);
    FinFreeLeftShape(s, w);
    var g := LeftGone(s, n, FinFreedLeft);
    LeftGoneBlocks(s, n, FinFreedLeft);
    NearIgnoresWorkers(s, g, s', n);
    forall m | InWindow(s, m) && 1 <= m <= Started(s) && m != n ensures RunnerMoves(s, s', s'.workers[w], m) {
      LeftGoneRunners(s, n, FinFreedLeft, s'.workers[w], m);
      assert RunnerMoves(s, g, s'.workers[w], m);
    }
  }

  lemma FinFreeLeftBalanced(s: State, w: nat)
    requires Inv(s) && Can(s, FinFreeLeft(w))
    ensures Balanced(s, DoFinFreeLeft(s, w), w, DoFinFreeLeft(s, w).workers[w])
  {
    var n, s' := IterAt(s, w), DoFinFreeLeft(s, w);
    FinFreeLeftShape(s, w);
    var g := LeftGone(s, n, FinFreedLeft);
    LeftGoneBlocks(s, n, FinFreedLeft);
    assert forall m :: Blk(s', m) == Blk(g, m);
    FlaggedIffDue(s, n, w);
    assert WorkerOk(s, w);
  }
}
