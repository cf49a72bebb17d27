/** The end of an iteration: giving up its block, resuming the iteration to the
    right, and going on with the control frame. */
module PiperFinish {
  import opened PiperState
  import opened PiperSteps
  import opened PiperFrames
  import opened PiperSafety

  /** The oldest iteration in the ring is past its waits. */
  lemma OldestIsNotSuspended(s: State, m: int)
    requires Inv(s) && m == s.reserved - |s.ring| + 1
    ensures !Blk(s, m).status.PromotedSuspended?
  {
    assert IterOk(s, m);
    assert 0 <= m - 1 ==> GoneOk(s, m - 1);
  }

  /** Looking to the right finds the next iteration or nothing: the block of an
      older iteration that has come round the ring is never taken for it. */
  lemma RightIsNext(s: State, n: int)
    requires Inv(s) && 1 <= n <= Started(s) && InWindow(s, n) && RightIsReady(s, n)
    ensures n + 1 <= Started(s) && InWindow(s, n + 1) && Blk(s, n + 1).iterNum == n + 1
    ensures Blk(s, n + 1).status.PromotedSuspended? && PhaseOf(s, n + 1) == Working(true)
    ensures !StageFinallyDone(PhaseOf(s, n))
  {
    if n + 1 <= s.reserved {
      assert IterOk(s, n + 1);
    } else {
      SameSlot(s, n + 1 - |s.ring|);
      OldestIsNotSuspended(s, n + 1 - |s.ring|);
    }
  }

  /** The memory after iteration n has given up its own block. */
  function OwnGone(s: State, n: int, resumes: bool): State
    requires |s.ring| > 0 && 1 <= n <= Started(s)
  {
    var s1 := if resumes then ResumeRight(s, n) else s;
    SetPhase(SetBlk(s1, n, Freed(Blk(s1, n))), n, Done)
  }

  lemma OwnGoneBlocks(s: State, n: int, resumes: bool)
    requires |s.ring| >= 2 && 1 <= n <= Started(s) && InWindow(s, n) && (resumes ==> InWindow(s, n + 1))
    ensures OnlyNear(s, OwnGone(s, n, resumes), n) && PhaseOf(OwnGone(s, n, resumes), n).Done?
    ensures forall m {:trigger Blk(OwnGone(s, n, resumes), m)} | InWindow(s, m) ::
              Blk(OwnGone(s, n, resumes), m)
              == if m == n then Freed(Blk(s, n))
                 else if resumes && m == n + 1 then Blk(s, m).(status := PromotedActive) else Blk(s, m)
  {
    var s1 := if resumes then ResumeRight(s, n) else s;
    if resumes { Blocks(s, n + 1, Blk(s, n + 1).(status := PromotedActive)); }
    var s2 := SetBlk(s1, n, Freed(Blk(s1, n)));
    Blocks(s1, n, Freed(Blk(s1, n)));
    var s' := OwnGone(s, n, resumes);
    assert forall m :: Blk(s', m) == Blk(s2, m);
  }

  ghost predicate MayGive(s: State, n: int, resumes: bool) {
    && Inv(s) && 1 <= n <= Started(s) && InWindow(s, n) && resumes == RightIsReady(s, n)
    && (PhaseOf(s, n).FinStaged? || PhaseOf(s, n).ExitFreedLeft?)
  }

  /** No wake-up is lost: if the next iteration is suspended, it waits for a
      stage that this one is past, and is resumed. */
  lemma SuspendedRightIsReady(s: State, n: int)
    requires Inv(s) && 1 <= n && n + 1 <= Started(s) && InWindow(s, n) && StageDone(PhaseOf(s, n)) && InWindow(s, n + 1)
    ensures Blk(s, n + 1).status.PromotedSuspended? ==> RightIsReady(s, n)
  {
    assert IterOk(s, n) && IterOk(s, n + 1);
  }

  lemma OwnGoneLeft(s: State, n: int, resumes: bool)
    requires MayGive(s, n, resumes) && InWindow(s, n - 1)
    ensures IterOk(OwnGone(s, n, resumes), n - 1)
  {
    if resumes { RightIsNext(s, n); }
    OwnGoneBlocks(s, n, resumes);
    var s' := OwnGone(s, n, resumes);
    assert IterOk(s, n - 1) && PhaseOf(s', n - 1) == PhaseOf(s, n - 1) && PhaseOf(s', n - 2) == PhaseOf(s, n - 2);
  }

  lemma OwnGoneRight(s: State, n: int, resumes: bool)
    requires MayGive(s, n, resumes) && InWindow(s, n + 1)
    ensures IterOk(OwnGone(s, n, resumes), n + 1)
  {
    if resumes { RightIsNext(s, n); }
    OwnGoneBlocks(s, n, resumes);
    var s' := OwnGone(s, n, resumes);
    assert IterOk(s, n) && IterOk(s, n + 1);
    if n + 1 <= Started(s) {
      SuspendedRightIsReady(s, n);
      assert PhaseOf(s', n + 1) == PhaseOf(s, n + 1);
      assert n + 2 <= Started(s) ==> PhaseOf(s', n + 2) == PhaseOf(s, n + 2);
    }
  }

  lemma OwnGoneIters(s: State, n: int, resumes: bool)
    requires MayGive(s, n, resumes)
    ensures resumes ==> InWindow(s, n + 1)
    ensures ItersOk(OwnGone(s, n, resumes))
  {
    if resumes { RightIsNext(s, n); }
    OwnGoneBlocks(s, n, resumes);
    var s' := OwnGone(s, n, resumes);
    assert IterOk(s, n) && WaitsOk(s, n);
    assert PhaseOf(s', n - 1) == PhaseOf(s, n - 1);
    if InWindow(s, n - 1) { OwnGoneLeft(s, n, resumes); }
    if InWindow(s, n + 1) { OwnGoneRight(s, n, resumes); }
    if n + 1 <= Started(s) {
      assert WaitsOk(s, n + 1) && PhaseOf(s', n + 1) == PhaseOf(s, n + 1);
    }
    NearIters(s, s', n);
  }

  lemma OwnGoneRunners(s: State, n: int, resumes: bool, x: Worker, m: int)
    requires MayGive(s, n, resumes) && InWindow(s, m) && 1 <= m <= Started(s) && m != n
    requires Runs(m)(x) <==> resumes && m == n + 1
    ensures RunnerMoves(s, OwnGone(s, n, resumes), x, m)
  {
    if resumes { RightIsNext(s, n); }
    OwnGoneBlocks(s, n, resumes);
    assert PhaseOf(OwnGone(s, n, resumes), m) == PhaseOf(s, m);
  }

  // ------------------------------------------------------ without a promotion

  lemma ExitFreeOwnKeepsInv(s: State, w: nat)
    requires Inv(s) && Can(s, ExitFreeOwn(w))
    ensures Inv(Do(s, ExitFreeOwn(w)))
  {
    ExiterFacts(s, w);
    var n, s' := IterAt(s, w), Do(s, ExitFreeOwn(w));
    var resumes := RightIsReady(s, n);
    if resumes { RightIsNext(s, n); }
    OwnGoneIters(s, n, resumes);
    OwnGoneBlocks(s, n, resumes);
    var g := OwnGone(s, n, resumes);
    NearIgnoresWorkers(s, g, s', n);
    ItersIgnoreWorkers(g, s');
    forall m | InWindow(s, m) && 1 <= m <= Started(s) && m != n ensures RunnerMoves(s, s', RUNNING_CONTROL, m) {
      OwnGoneRunners(s, n, resumes, RUNNING_CONTROL, m);
      assert RunnerMoves(s, g, RUNNING_CONTROL, m);
    }
    MoverStep(s, s', n, w, RUNNING_CONTROL);
  }

  // --------------------------------------------------------- after a promotion

  /** What the worker is left with when its iteration has given up its block. */
  function ParentAfter(s: State, w: nat): ParentResume
    requires Works(s, w)
  {
    Flagged(Freed(BlkAt(s, w)), s.workers[w].parentResume)
  }

  lemma OwnFlaggedIffDue(s: State, w: nat)
    requires Inv(s) && Works(s, w) && PhaseAt(s, w).FinStaged?
    ensures var n, x := IterAt(s, w), s.workers[w];
            var resumes := RightIsReady(s, n);
            && MayGive(s, n, resumes) && (resumes ==> InWindow(s, n + 1))
            && var s' := OwnGone(s, n, resumes);
            && (ThrottleDue(s') <==> ThrottleDue(s) || ParentAfter(s, w) != x.parentResume)
            && (ParentAfter(s, w) != x.parentResume ==> (
                  s.pc.Blocked? && !ThrottleDue(s) && x.parentResume.NoParent? && ParentAfter(s, w).ThrottleSuspend?))
            && (s.pc.Past? ==> Blk(s', Started(s) + 1 - |s.ring|).counter == 0)
            && (ParentAfter(s, w).ThrottleSuspend? ==> ThrottleDue(s'))
  {
    var n := IterAt(s, w);
    var resumes := RightIsReady(s, n);
    RunnerFacts(s, w);
    if resumes { RightIsNext(s, n); }
    OwnGoneBlocks(s, n, resumes);
    var next := Started(s) + 1 - |s.ring|;
    CounterIsZeroIff(s, n);
    if s.pc.Blocked? || s.pc.Past? { assert InWindow(s, next); }
    if ResumesThrottled(s.workers[w]) { CountHas(s.workers, w, ResumesThrottled); }
  }

  /** The memory after the finish, with worker w turned to x. */
  function AfterFinish(s: State, w: nat, x: Worker): State
    requires Works(s, w)
  {
    OwnGone(s, IterAt(s, w), RightIsReady(s, IterAt(s, w))).(workers := s.workers[w := x])
  }

  /** What the worker does next, unless it resumes a suspended control frame. */
  function WorkerAfter(s: State, w: nat): Worker
    requires Works(s, w)
  {
    if RightIsReady(s, IterAt(s, w)) then Worker(RunsIter(IterAt(s, w) + 1), ParentAfter(s, w), false)
    else if ParentAfter(s, w).NoParent? then IDLE else RUNNING_CONTROL
  }

  /** The worker resumes a control frame that was suspended at the throttle. */
  predicate Releases(s: State, w: nat)
    requires Works(s, w)
  {
    !RightIsReady(s, IterAt(s, w)) && ParentAfter(s, w).ThrottleSuspend?
  }

  lemma FinRestShape(s: State, w: nat)
    requires Inv(s) && Can(s, FinRest(w))
    ensures var s' := AfterFinish(s, w, WorkerAfter(s, w));
            DoFinRest(s, w) == if Releases(s, w) then s'.(resume := ResumingControl, pc := Past) else s'
  {
    var n := IterAt(s, w);
    RunnerFacts(s, w);
    var resumes := RightIsReady(s, n);
    if resumes {
      RightIsNext(s, n);
      Blocks(s, n + 1, Blk(s, n + 1).(status := PromotedActive));
    }
    OwnFlaggedIffDue(s, w);
    OwnGoneBlocks(s, n, resumes);
    assert Blk(OwnGone(s, n, resumes), n) == Freed(Blk(s, n));
  }

  lemma FinRestMoves(s: State, w: nat, x: Worker)
    requires Inv(s) && Can(s, FinRest(w)) && x == WorkerAfter(s, w)
    ensures RightIsReady(s, IterAt(s, w)) ==> InWindow(s, IterAt(s, w) + 1)
    ensures Moves(s, AfterFinish(s, w, x), IterAt(s, w), w, x) && ItersOk(AfterFinish(s, w, x))
  {
    var n := IterAt(s, w);
    RunnerFacts(s, w);
    var resumes := RightIsReady(s, n);
    if resumes { RightIsNext(s, n); }
    OwnGoneIters(s, n, resumes);
    OwnGoneBlocks(s, n, resumes);
    var g, s' := OwnGone(s, n, resumes), AfterFinish(s, w, x);
    NearIgnoresWorkers(s, g, s', n);
    ItersIgnoreWorkers(g, s');
    forall m | InWindow(s, m) && 1 <= m <= Started(s) && m != n ensures RunnerMoves(s, s', x, m) {
      OwnGoneRunners(s, n, resumes, x, m);
      assert RunnerMoves(s, g, x, m);
    }
  }

  lemma FinRestWorker(s: State, w: nat, x: Worker)
    requires Inv(s) && Can(s, FinRest(w)) && x == WorkerAfter(s, w) && !Releases(s, w)
    ensures WorkerOk(AfterFinish(s, w, x), w)
  {
    var n, s' := IterAt(s, w), AfterFinish(s, w, x);
    RunnerFacts(s, w);
    OwnFlaggedIffDue(s, w);
    OwnGoneBlocks(s, n, RightIsReady(s, n));
    if RightIsReady(s, n) {
      RightIsNext(s, n);
      assert Blk(s', n + 1) == Blk(OwnGone(s, n, true), n + 1);
      assert PhaseOf(s', n + 1) == PhaseOf(s, n + 1);
    }
  }

  lemma FinRestBalanced(s: State, w: nat, x: Worker)
    requires Inv(s) && Can(s, FinRest(w)) && x == WorkerAfter(s, w) && !Releases(s, w)
    ensures Balanced(s, AfterFinish(s, w, x), w, x)
  {
    FinRestWorker(s, w, x);
    RunnerFacts(s, w);
    OwnFlaggedIffDue(s, w);
    var n, s' := IterAt(s, w), AfterFinish(s, w, x);
    if RightIsReady(s, n) { RightIsNext(s, n); }
    assert forall m :: Blk(s', m) == Blk(OwnGone(s, n, RightIsReady(s, n)), m);
  }

  lemma FinRestReleases(s: State, w: nat, mid: State, s': State)
    requires Inv(s) && Can(s, FinRest(w)) && Releases(s, w)
    requires mid == AfterFinish(s, w, RUNNING_CONTROL) && s' == mid.(resume := ResumingControl, pc := Past)
    ensures Inv(s')
  {
    FinRestMoves(s, w, RUNNING_CONTROL);
    OwnFlaggedIffDue(s, w);
    assert forall m :: Blk(mid, m) == Blk(OwnGone(s, IterAt(s, w), false), m);
    if ResumesThrottled(s.workers[w]) { CountHas(s.workers, w, ResumesThrottled); }
    ReleaseStep(s, mid, s', IterAt(s, w), w);
  }

  lemma FinRestKeepsInv(s: State, w: nat)
    requires Inv(s) && Can(s, FinRest(w))
    ensures Inv(Do(s, FinRest(w)))
  {
    var x := WorkerAfter(s, w);
    FinRestShape(s, w);
    if Releases(s, w) {
      FinRestReleases(s, w, AfterFinish(s, w, x), DoFinRest(s, w));
    } else {
      FinRestMoves(s, w, x);
      FinRestBalanced(s, w, x);
      MoverStep(s, AfterFinish(s, w, x), IterAt(s, w), w, x);
    }
  }
}
