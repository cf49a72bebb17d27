/** What holds in every run of a pipeline under the runtime. */
module PiperRuns {
  import opened PiperState
  import opened PiperSteps
  import opened PiperFrames
  import opened PiperSafety
  import opened PiperFinish
  import opened PiperControl
  import opened PiperThrottle

  predicate IsMacro(a: Step) { a.Advance? || a.BeginWait? || a.ReadLeft? || a.EndWait? || a.Leave? }

  predicate IsExit(a: Step) { a.PopIteration? || a.ExitStage? || a.ExitFreeLeft? || a.ExitFreeOwn? }

  predicate IsControl(a: Step) { a.StartIteration? || a.StopLoop? || a.Throttle? || a.SuspendAtThrottle? || a.ReserveNext? }

  lemma MacroKeepsInv(s: State, a: Step)
    requires Inv(s) && Can(s, a) && IsMacro(a)
    ensures Inv(Do(s, a))
  {
    match a
    case Advance(w, stage) => AdvanceKeepsInv(s, w, stage);
    case BeginWait(w, stage) => BeginWaitKeepsInv(s, w, stage);
    case ReadLeft(w) => ReadLeftKeepsInv(s, w);
    case EndWait(w) => EndWaitKeepsInv(s, w);
    case Leave(w) => LeaveKeepsInv(s, w);
  }

  lemma ExitKeepsInv(s: State, a: Step)
    requires Inv(s) && Can(s, a) && IsExit(a)
    ensures Inv(Do(s, a))
  {
    match a
    case PopIteration(w) => PopKeepsInv(s, w);
    case ExitStage(w) => ExitStageKeepsInv(s, w);
    case ExitFreeLeft(w) => ExitFreeLeftKeepsInv(s, w);
    case ExitFreeOwn(w) => ExitFreeOwnKeepsInv(s, w);
  }

  lemma ControlKeepsInv(s: State, a: Step)
    requires Inv(s) && Can(s, a) && IsControl(a)
    ensures Inv(Do(s, a))
  {
    match a
    case StartIteration(w) => StartKeepsInv(s, w);
    case StopLoop(w) => StopKeepsInv(s, w);
    case Throttle(w) => ThrottleKeepsInv(s, w);
    case SuspendAtThrottle(w) => SuspendAtThrottleKeepsInv(s, w);
    case ReserveNext(w) => ReserveKeepsInv(s, w);
  }

  lemma PromotedKeepsInv(s: State, a: Step)
    requires Inv(s) && Can(s, a) && !IsMacro(a) && !IsExit(a) && !IsControl(a)
    ensures Inv(Do(s, a))
  {
    match a
    case Steal(t, w) => StealKeepsInv(s, t, w);
    case PromoteSelf(w) => PromoteSelfKeepsInv(s, w);
    case SuspendAtWait(w) => SuspendKeepsInv(s, w);
    case FinFreeLeft(w) => FinFreeLeftKeepsInv(s, w);
    case FinStage(w) => FinStageKeepsInv(s, w);
    case FinRest(w) => FinRestKeepsInv(s, w);
    case ImplicitSteal(t, w) => ImplicitStealKeepsInv(s, t, w);
  }

  /** Every step of every worker keeps the invariant. */
  lemma StepKeepsInv(s: State, a: Step)
    requires Inv(s) && Can(s, a)
    ensures Inv(Do(s, a))
  {
    if IsMacro(a) {
      MacroKeepsInv(s, a);
    } else if IsExit(a) {
      ExitKeepsInv(s, a);
    } else if IsControl(a) {
      ControlKeepsInv(s, a);
    } else {
      PromotedKeepsInv(s, a);
    }
  }

  // ------------------------------------------------------------------- the start

  /** The ring as it is set up: block 0 stands for a finished iteration 0, block
      1 is reserved for iteration 1, the rest are free. Blocks that were never
      used have arbitrary stages. */
  predicate IsFreshRing(ring: seq<Block>) {
    && |ring| >= 2
    && (ring[0].counter == CLEANUP_THROTTLE_VAL + CLEANUP_FINISH_ITER_VAL && ring[0].inUse
        && ring[0].status.StandardExec? && ring[0].stage == FINISH_STAGE && ring[0].iterNum == 0)
    && (ring[1].counter == CLEANUP_INITIAL_VAL && ring[1].inUse && ring[1].status.Finished?)
    && forall i | 2 <= i < |ring| :: ring[i].counter == CLEANUP_THROTTLE_VAL && !ring[i].inUse && ring[i].status.Finished?
  }

  /** One worker is about to start iteration 1, the others are idle. */
  predicate IsStart(s: State) {
    && IsFreshRing(s.ring) && s.phases == [] && s.reserved == 1 && s.pc.Next? && s.resume.NormalCilk?
    && |s.workers| >= 1 && s.workers[0] == RUNNING_CONTROL
    && forall w | 1 <= w < |s.workers| :: s.workers[w] == IDLE
  }

  lemma {:induction false} OnlyFirstWorker(ws: seq<Worker>, p: Worker -> bool)
    requires |ws| >= 1 && forall w | 1 <= w < |ws| :: !p(ws[w])
    ensures Count(ws, p) == if p(ws[0]) then 1 else 0
  {
    if |ws| > 1 {
      OnlyFirstWorker(ws[..|ws| - 1], p);
    } else {
      assert Count(ws[..0], p) == 0;
    }
  }

  lemma {:induction false} EarlySlot(k: nat, n: int)
    requires k >= 2 && 2 - k <= n <= 1
    ensures Slot(k, n) == if n >= 0 then n else n + k
    decreases -n + 1
  {
    assert Slot(k, 0) == 0 && Slot(k, 1) == 1;
    if n < 0 {
      EarlySlot(k, n + 1);
    }
  }

  lemma StartHasInv(s: State)
    requires IsStart(s)
    ensures Inv(s)
  {
    forall n | InWindow(s, n) ensures IterOk(s, n) {
      EarlySlot(|s.ring|, n);
    }
    OnlyFirstWorker(s.workers, HasControl);
    OnlyFirstWorker(s.workers, ResumesThrottled);
  }

  /** A run: every state follows from the one before by a step. */
  ghost predicate IsRun(run: seq<State>, steps: seq<Step>) {
    && |run| == |steps| + 1 && IsStart(run[0])
    && forall i | 0 <= i < |steps| :: Follows(run[i], steps[i], run[i + 1])
  }

  predicate Follows(s: State, a: Step, s': State) { Can(s, a) && s' == Do(s, a) }

  lemma FollowsKeepsInv(s: State, a: Step, s': State)
    requires Inv(s) && Follows(s, a, s')
    ensures Inv(s')
  {
    StepKeepsInv(s, a);
  }

  lemma {:induction false} RunHasInv(run: seq<State>, steps: seq<Step>, i: nat)
    requires IsRun(run, steps) && i < |run|
    ensures Inv(run[i])
  {
    if i == 0 {
      StartHasInv(run[0]);
    } else {
      RunHasInv(run, steps, i - 1);
      assert Follows(run[i - 1], steps[i - 1], run[i]);
      FollowsKeepsInv(run[i - 1], steps[i - 1], run[i]);
    }
  }

  // --------------------------------------------------------------- one control token

  /** The four ways in which a worker can have the control frame exclude each other. */
  predicate HasControlOnce(x: Worker) {
    (if x.task.RunsControl? || x.task.RunsExit? then 1 else 0) + (if x.holdsControl then 1 else 0)
    + (if x.parentResume.SelfSteal? then 1 else 0) <= 1
  }

  /** In every state of every run the control frame is in one place: with one
      worker, in one way, or suspended at the throttle, or done. And no two
      workers hold a frame to resume. */
  lemma ControlIsInOnePlace(run: seq<State>, steps: seq<Step>, i: nat, v: nat, w: nat)
    requires IsRun(run, steps) && i < |run| && v < |run[i].workers| && w < |run[i].workers|
    ensures HasControl(run[i].workers[v]) && HasControl(run[i].workers[w]) ==> v == w
    ensures HasControl(run[i].workers[v]) ==> HasControlOnce(run[i].workers[v]) && !run[i].pc.Blocked? && !run[i].pc.Ended?
    ensures !run[i].pc.Blocked? && !run[i].pc.Ended? ==> exists u: nat :: u < |run[i].workers| && HasControl(run[i].workers[u])
    ensures !run[i].workers[v].parentResume.NoParent? && !run[i].workers[w].parentResume.NoParent? ==> v == w
  {
    RunHasInv(run, steps, i);
    var s := run[i];
    assert WorkerOk(s, v) && WorkerOk(s, w);
    if HasControl(s.workers[v]) {
      ControlIsHere(s, v);
      if HasControl(s.workers[w]) { OneControl(s, v, w); }
    }
    if !s.pc.Blocked? && !s.pc.Ended? {
      var u := CountFinds(s.workers, HasControl);
    }
    if v != w && ResumesThrottled(s.workers[v]) && ResumesThrottled(s.workers[w]) {
      CountHasTwo(s.workers, if v < w then v else w, if v < w then w else v, ResumesThrottled);
    }
  }

  /** A control frame suspended at the throttle is about to be resumed by exactly
      one worker if its block is free, and by none otherwise. */
  lemma ReleaseIsPendingIffFree(run: seq<State>, steps: seq<Step>, i: nat)
    requires IsRun(run, steps) && i < |run| && run[i].pc.Blocked?
    ensures var s := run[i];
            && InWindow(s, Oldest(s))
            && (Count(s.workers, ResumesThrottled) == 1 <==> Blk(s, Oldest(s)).counter == 0)
            && (Blk(s, Oldest(s)).counter == 0 <==> OwnFreed(s, Oldest(s)) && LeftFreed(s, Oldest(s) + 1))
  {
    RunHasInv(run, steps, i);
    CounterIsZeroIff(run[i], Oldest(run[i]));
  }

  /** The three ways past the throttle. */
  predicate Crosses(s: State, a: Step)
    requires Can(s, a)
  {
    Do(s, a).pc.Past? && !s.pc.Past?
  }

  lemma ThrottleCrosses(s: State, w: nat)
    requires Inv(s) && Controls(s, w) && (s.pc.Spawned? || s.pc.Slow?)
    requires ReadyForReuse(NextBlk(s).(counter := NextBlk(s).counter - if s.pc.Slow? then CLEANUP_THROTTLE_VAL else 0))
    ensures NextBlk(s).counter == CLEANUP_THROTTLE_VAL
  {
    NextIsOldest(s, w);
    OldestCounter(s, w);
  }

  lemma CrossedBlockIsFree(s: State)
    requires Inv(s) && s.pc.Past?
    ensures Blk(s, Oldest(s)).counter == 0 && Count(s.workers, ResumesThrottled) == 0
  {
  }

  predicate ReleaseReason(s: State, a: Step)
    requires Can(s, a)
  {
    match a
    case Throttle(w) => s.pc.Spawned? && NextBlk(s).counter == CLEANUP_THROTTLE_VAL
    case SuspendAtThrottle(w) => s.pc.Slow? && NextBlk(s).counter == CLEANUP_THROTTLE_VAL
    case FinRest(w) => s.pc.Blocked? && s.resume.SuspendedControl? && Releases(s, w)
    case ImplicitSteal(t, w) => s.pc.Blocked? && s.resume.SuspendedControl? && ResumesThrottled(s.workers[w])
    case _ => false
  }

  lemma CrossingSteps(s: State, a: Step)
    requires Can(s, a) && Crosses(s, a)
    ensures a.Throttle? || a.SuspendAtThrottle? || a.FinRest? || a.ImplicitSteal?
  {
  }

  lemma FinishCrosses(s: State, w: nat)
    requires Inv(s) && Can(s, FinRest(w)) && DoFinRest(s, w).pc.Past? && !s.pc.Past?
    ensures ReleaseReason(s, FinRest(w))
  {
    FinRestShape(s, w);
  }

  lemma CrossingHasReason(s: State, a: Step)
    requires Inv(s) && Can(s, a) && Crosses(s, a)
    ensures ReleaseReason(s, a)
  {
    CrossingSteps(s, a);
    match a {
      case Throttle(w) => ThrottleCrosses(s, w);
      case SuspendAtThrottle(w) => ThrottleCrosses(s, w);
      case FinRest(w) => FinishCrosses(s, w);
      case _ =>
    }
  }

  /** A throttle crossing happens on a free block only, and is the fast path,
      the second look of the suspending worker, or the act of the one worker
      that was told to resume the suspended control frame. */
  lemma CrossingIsReleasedOnce(run: seq<State>, steps: seq<Step>, i: nat)
    requires IsRun(run, steps) && i < |steps| && run[i + 1].pc.Past? && !run[i].pc.Past?
    ensures Can(run[i], steps[i]) && ReleaseReason(run[i], steps[i])
    ensures Blk(run[i + 1], Oldest(run[i + 1])).counter == 0 && Count(run[i + 1].workers, ResumesThrottled) == 0
  {
    RunHasInv(run, steps, i);
    RunHasInv(run, steps, i + 1);
    assert Follows(run[i], steps[i], run[i + 1]);
    CrossedBlockIsFree(run[i + 1]);
    CrossingHasReason(run[i], steps[i]);
  }

  // ------------------------------------------------------------- safe block reuse

  /** The counter accounts for who still needs the block. */
  lemma BlocksAreAccountedFor(run: seq<State>, steps: seq<Step>, i: nat, n: int)
    requires IsRun(run, steps) && i < |run| && InWindow(run[i], n)
    ensures var s := run[i];
            && Blk(s, n).counter == (if OwnFreed(s, n) then 0 else 16) + (if LeftFreed(s, n + 1) then 0 else 16)
                                    + (if Arrived(s, n) then 0 else 1)
            && Blk(s, n).inUse == (Blk(s, n).counter > 1)
            && (1 <= n <= Started(s) ==> Blk(s, n).iterNum == n)
  {
    RunHasInv(run, steps, i);
    assert IterOk(run[i], n);
  }

  /** As long as an iteration may look to its left, the block there is the one
      of the iteration before it. */
  lemma LeftStaysInPlace(run: seq<State>, steps: seq<Step>, i: nat, n: int)
    requires IsRun(run, steps) && i < |run| && InWindow(run[i], n) && 1 <= n <= Started(run[i]) && !LeftFreed(run[i], n)
    ensures InWindow(run[i], n - 1) && (n >= 2 ==> Blk(run[i], n - 1).iterNum == n - 1)
    ensures Started(run[i]) < n - 1 + |run[i].ring|
  {
    RunHasInv(run, steps, i);
    LeftIsInWindow(run[i], n);
    assert IterOk(run[i], n - 1);
  }

  /** Whatever the code asserts when it gives up a block. */
  lemma FreeingIsSafe(s: State, w: nat)
    requires Inv(s)
    ensures Can(s, FinFreeLeft(w)) ==> FreesSafely(s, IterAt(s, w) - 1, true)
    ensures Can(s, ExitFreeLeft(w)) ==> FreesSafely(s, IterAt(s, w) - 1, false)
    ensures Can(s, FinRest(w)) ==> FreesSafely(s, IterAt(s, w), true)
    ensures Can(s, ExitFreeOwn(w)) ==> FreesSafely(s, IterAt(s, w), false)
  {
    if Works(s, w) && (PhaseAt(s, w).Leaving? || PhaseAt(s, w).FinStaged?) {
      RunnerFacts(s, w);
    }
    if Exits(s, w) {
      ExiterFacts(s, w);
    }
  }

  /** The block is in use, its iteration is past its last user stage, and the
      counter stays above 0 unless a suspended control frame may wait for it. */
  predicate FreesSafely(s: State, n: int, mayResume: bool)
    requires |s.ring| > 0
  {
    && InWindow(s, n) && Blk(s, n).inUse && Blk(s, n).counter >= CLEANUP_FINISH_ITER_VAL
    && (n >= 0 ==> Blk(s, n).stage >= POST_CLEANUP_STAGE)
    && (Blk(s, n).status.PromotedActive? || Blk(s, n).status.StandardExec?)
    && (!mayResume ==> !ReadyToResumeAfterThrottle(Freed(Blk(s, n))))
  }

  // -------------------------------------------------------------- no lost wake-up

  /** A suspended iteration has a left neighbour whose finish step is still to
      come; only the newest iteration can be unpromoted while it runs. */
  lemma SuspendedWillBeWoken(run: seq<State>, steps: seq<Step>, i: nat, n: int)
    requires IsRun(run, steps) && i < |run| && InWindow(run[i], n) && 1 <= n <= Started(run[i])
    ensures Blk(run[i], n).status.PromotedSuspended? ==> (
              && n >= 2 && PhaseOf(run[i], n) == Working(true)
              && !PhaseOf(run[i], n - 1).Done? && !StageFinallyDone(PhaseOf(run[i], n - 1)))
    ensures Blk(run[i], n).status.StandardExec? && !PhaseOf(run[i], n).Done? ==> n == Started(run[i])
  {
    RunHasInv(run, steps, i);
    assert IterOk(run[i], n);
  }

  /** The step an iteration's worker can take next. */
  function NextStep(s: State, w: nat): Step
    requires Works(s, w) || Exits(s, w)
  {
    match PhaseAt(s, w)
    case Working(false) => if BlkAt(s, w).stage == FINAL_STAGE then Leave(w) else BeginWait(w, FINAL_STAGE)
    case Working(true) => if BlkAt(s, w).cachedLeft > BlkAt(s, w).stage then EndWait(w) else ReadLeft(w)
    case Leaving => if s.workers[w].holdsControl then PopIteration(w) else FinFreeLeft(w)
    case ExitPopped => ExitStage(w)
    case ExitStaged => ExitFreeLeft(w)
    case ExitFreedLeft => ExitFreeOwn(w)
    case FinFreedLeft => FinStage(w)
    case FinStaged => FinRest(w)
    case Done => FinRest(w)
  }

  lemma UnfinishedIsInWindow(s: State, n: int)
    requires Inv(s) && 1 <= n <= Started(s) && !PhaseOf(s, n).Done?
    ensures InWindow(s, n)
  {
    assert n <= s.reserved - |s.ring| ==> GoneOk(s, n);
  }

  /** The oldest unfinished iteration is never suspended: some worker runs it,
      that worker can take its next step, and if it waits, its wait is over. */
  lemma OldestGoesOn(s: State, n: int) returns (w: nat)
    requires Inv(s) && 1 <= n <= Started(s) && !PhaseOf(s, n).Done? && PhaseOf(s, n - 1).Done?
    ensures InWindow(s, n) && !Blk(s, n).status.PromotedSuspended?
    ensures w < |s.workers| && Runs(n)(s.workers[w]) && (Works(s, w) || Exits(s, w)) && Can(s, NextStep(s, w))
    ensures PhaseOf(s, n) == Working(true) ==> !Stalls(s, n)
  {
    UnfinishedIsInWindow(s, n);
    assert IterOk(s, n) && RunnersOk(s, n);
    w := CountFinds(s.workers, Runs(n));
    assert WorkerOk(s, w);
    if PhaseOf(s, n) == Working(true) {
      LeftIsInWindow(s, n);
      assert IterOk(s, n - 1);
    }
  }

  /** A wait that is over ends once the left stage has been read. */
  lemma WaitEnds(s: State, w: nat)
    requires Inv(s) && Works(s, w) && PhaseAt(s, w) == Working(true) && !Stalls(s, IterAt(s, w))
    ensures Can(s, ReadLeft(w)) && Can(Do(s, ReadLeft(w)), EndWait(w))
  {
    RunnerFacts(s, w);
    var n := IterAt(s, w);
    SetBlkFrame(s, n, Blk(s, n).(cachedLeft := Blk(s, n - 1).stage), n);
  }

  /** When all started iterations are done, control is not suspended. */
  lemma ControlGoesOn(s: State) returns (w: nat)
    requires Inv(s) && !s.pc.Ended? && forall n | 1 <= n <= Started(s) :: PhaseOf(s, n).Done?
    ensures w < |s.workers| && s.workers[w].task.RunsControl?
    ensures Can(s, Throttle(w)) || Can(s, SuspendAtThrottle(w)) || Can(s, ReserveNext(w)) || Can(s, StartIteration(w))
  {
    forall v: nat | v < |s.workers| ensures !s.workers[v].task.RunsIter? && !s.workers[v].task.RunsExit? && WorkerOk(s, v) {
      assert WorkerOk(s, v);
    }
    if s.pc.Blocked? {
      CounterIsZeroIff(s, Oldest(s));
      assert Oldest(s) >= 1 ==> PhaseOf(s, Oldest(s)).Done?;
      assert Oldest(s) + 1 >= 1 ==> PhaseOf(s, Oldest(s) + 1).Done?;
      var v := CountFinds(s.workers, ResumesThrottled);
    }
    w := CountFinds(s.workers, HasControl);
  }

  lemma ControlStepChanges(s: State) returns (a: Step)
    requires Inv(s) && !s.pc.Ended? && forall n | 1 <= n <= Started(s) :: PhaseOf(s, n).Done?
    ensures Can(s, a) && IsControl(a) && !a.StartIteration? && Do(s, a).pc != s.pc
  {
    var w := ControlGoesOn(s);
    match s.pc
    case Spawned => a := Throttle(w);
    case Slow => a := SuspendAtThrottle(w);
    case Past => a := ReserveNext(w);
    case Next => a := StopLoop(w);
    case _ =>
  }

  ghost predicate DoneUpTo(s: State, n: nat) {
    n <= Started(s) && forall m | 1 <= m <= n :: PhaseOf(s, m).Done?
  }

  /** The control frame has left its loop and every iteration is done. */
  predicate HasFinished(s: State) {
    s.pc.Ended? && forall n | 1 <= n <= Started(s) :: PhaseOf(s, n).Done?
  }

  /** The next step of an iteration that need not wait changes something. */
  lemma NextStepChanges(s: State, w: nat)
    requires |s.ring| > 0 && (Works(s, w) || Exits(s, w)) && Can(s, NextStep(s, w))
    requires PhaseAt(s, w) == Working(true) ==> !Stalls(s, IterAt(s, w))
    ensures Do(s, NextStep(s, w)) != s
  {
    var n, a := IterAt(s, w), NextStep(s, w);
    if a.ReadLeft? {
      assert Blk(Do(s, a), n).cachedLeft != Blk(s, n).cachedLeft;
    } else {
      assert PhaseOf(Do(s, a), n) != PhaseOf(s, n);
    }
  }

  /** No run gets stuck before it has finished: some step changes something. */
  lemma NeverStuck(run: seq<State>, steps: seq<Step>, i: nat)
    requires IsRun(run, steps) && i < |run| && !HasFinished(run[i])
    ensures exists a: Step :: Can(run[i], a) && Do(run[i], a) != run[i]
  {
    RunHasInv(run, steps, i);
    var s := run[i];
    var n := 0;
    while n < Started(s) && PhaseOf(s, n + 1).Done?
      invariant n <= Started(s) && DoneUpTo(s, n)
    {
      n := n + 1;
    }
    if n < Started(s) {
      var w := OldestGoesOn(s, n + 1);
      NextStepChanges(s, w);
    } else {
      var a := ControlStepChanges(s);
    }
  }

  /** A worker whose wait stalls gives its iteration up: it is suspended, and the worker
      resumes the next iteration if that can go on, or the control frame that it has
      stolen from itself, or is idle. */
  lemma SuspensionLetsGo(s: State, w: nat)
    requires Inv(s) && Can(s, SuspendAtWait(w)) && Stalls(s, IterAt(s, w))
    ensures var s', n := DoSuspend(s, w), IterAt(s, w);
            && |s'.ring| == |s.ring| && w < |s'.workers| && Blk(s', n).status.PromotedSuspended?
            && if n + 1 <= Started(s) && InWindow(s, n + 1) && Blk(s, n + 1).status.PromotedSuspended? && !Stalls(s, n + 1)
               then s'.workers[w].task == RunsIter(n + 1) && Blk(s', n + 1).status.PromotedActive?
               else s'.workers[w] == if s.workers[w].parentResume.SelfSteal? then RUNNING_CONTROL else IDLE
  {
    var n, s1 := IterAt(s, w), Suspended(s, w);
    RunnerFacts(s, w);
    StallingFacts(s, w);
    SuspendShape(s, w);
    SuspendedKeepsInv(s, w);
    Blocks(s, n, Blk(s, n).(status := PromotedSuspended));
    SuspensionIsLocal(s, w);
    if RightIsReady(s1, n) {
      RightIsNext(s1, n);
      SetBlkFrame(s1, n + 1, Blk(s1, n + 1).(status := PromotedActive), n);
    }
  }

  lemma SuspensionIsLocal(s: State, w: nat)
    requires Inv(s) && Can(s, SuspendAtWait(w)) && InWindow(s, IterAt(s, w))
    ensures var n, s1 := IterAt(s, w), Suspended(s, w);
            Blk(s1, n).status.PromotedSuspended? && Blk(s1, n).stage == Blk(s, n).stage
            && (InWindow(s, n + 1) ==> Blk(s1, n + 1) == Blk(s, n + 1))
  {
    var n := IterAt(s, w);
    Blocks(s, n, Blk(s, n).(status := PromotedSuspended));
    if InWindow(s, n + 1) { SetBlkFrame(s, n, Blk(s, n).(status := PromotedSuspended), n + 1); }
  }

  /** A worker that has finished a promoted iteration goes on with the next one if that is
      suspended, or else with the control frame that it is to resume, or is idle. */
  lemma FinishPassesOn(s: State, w: nat)
    requires Inv(s) && Can(s, FinRest(w))
    ensures var s', n := DoFinRest(s, w), IterAt(s, w);
            && w < |s'.workers| && n <= Started(s') && PhaseOf(s', n).Done?
            && if n + 1 <= Started(s) && InWindow(s, n + 1) && Blk(s, n + 1).status.PromotedSuspended?
               then s'.workers[w].task == RunsIter(n + 1)
               else s'.workers[w] == if s.workers[w].parentResume.SelfSteal? || Releases(s, w) then RUNNING_CONTROL else IDLE
  {
    var n := IterAt(s, w);
    RunnerFacts(s, w);
    FinRestShape(s, w);
    if RightIsReady(s, n) { RightIsNext(s, n); }
    if n + 1 <= Started(s) && InWindow(s, n + 1) { SuspendedRightIsReady(s, n); }
  }

  /** An idle worker that asks a worker for work takes over its implicit parent if that is
      ready, or else resumes the next iteration if that is suspended and can go on. */
  lemma ThiefGetsWork(s: State, t: nat, w: nat)
    requires Inv(s) && Can(s, ImplicitSteal(t, w))
    ensures t < |DoImplicitSteal(s, t, w).workers| && w < |DoImplicitSteal(s, t, w).workers|
    ensures DoImplicitSteal(s, t, w).workers[w] == s.workers[w].(parentResume := NoParent)
    ensures var s', n := DoImplicitSteal(s, t, w), IterAt(s, w);
            if ParentIsReady(s, s.workers[w].parentResume) then
              s'.workers[t] == RUNNING_CONTROL && s'.ring == s.ring
            else if n + 1 <= Started(s) && InWindow(s, n + 1) && Blk(s, n + 1).status.PromotedSuspended? && !Stalls(s, n + 1) then
              s'.workers[t] == Worker(RunsIter(n + 1), NoParent, false) && Blk(s', n + 1).status.PromotedActive?
            else s'.workers[t] == s.workers[t] && s'.ring == s.ring
  {
    RunnerFacts(s, w);
    assert t != w;
    if RightIsReady(s, IterAt(s, w)) { RightIsNext(s, IterAt(s, w)); }
  }

  // -------------------------------------------------------------- stage-wait safety

  /** In every run a wait ends only when the left iteration is past the stage. */
  lemma WaitsAreSafe(run: seq<State>, steps: seq<Step>, i: nat, w: nat)
    requires IsRun(run, steps) && i < |steps| && steps[i] == EndWait(w)
    ensures Works(run[i], w) && InWindow(run[i], IterAt(run[i], w) - 1)
    ensures Blk(run[i], IterAt(run[i], w) - 1).stage > Blk(run[i], IterAt(run[i], w)).stage
  {
    RunHasInv(run, steps, i);
    assert Follows(run[i], steps[i], run[i + 1]);
    WaitIsSafe(run[i], w);
  }
}
