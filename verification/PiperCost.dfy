/** What the iterations still cost: every step of the runtime, paid with the cost of its
    own iteration, raises no other one's but that of the next, which has to look again. */
module PiperCost {
  import opened PiperState
  import opened PiperSteps
  import opened PiperFrames
  import opened PiperSafety
  import opened PiperFinish
  import opened PiperControl
  import opened PiperThrottle
  import opened PiperRuns
  import opened PiperProgress

  // -------------------------------------------------------------------- the costs

  /** The end of a wait, the next look to the left, suspending and resuming. */
  function WaitCost(s: State, n: int): nat
    requires |s.ring| > 0 && n <= Started(s)
  {
    if PhaseOf(s, n) != Working(true) then 0
    else
      1 + (if Blk(s, n).cachedLeft != Blk(s, n - 1).stage then 1 else 0)
      + (if Blk(s, n).status.PromotedSuspended? then 1 else if Stalls(s, n) then 2 else 0)
  }

  /** The way out, and being promoted. */
  function OutCost(s: State, n: int): nat
    requires |s.ring| > 0 && n <= Started(s)
  {
    3 * (5 - Rank(PhaseOf(s, n))) + if !PhaseOf(s, n).Done? && Blk(s, n).status.StandardExec? then 2 else 0
  }

  function Cost(s: State, n: int): nat
    requires |s.ring| > 0 && n <= Started(s)
  {
    WaitCost(s, n) + OutCost(s, n)
  }

  /** Steps that an iteration makes for itself. */
  predicate IsOwn(a: Step) { IsMacro(a) || IsFinishing(a) || a.Steal? || a.PromoteSelf? || a.SuspendAtWait? }

  predicate IsOwnOf(s: State, a: Step, n: int)
    requires Can(s, a)
  {
    IsOwn(a) && IterAt(s, a.w) == n
  }

  /** Steps that move a stage counter. */
  predicate MovesCounter(a: Step) { a.Advance? || a.BeginWait? || a.Leave? || SetsFinishStage(a) }

  /** What a step adds to the cost of its own iteration at most. */
  function OwnChange(a: Step): int {
    match a
    case BeginWait(_, _) => 4
    case ReadLeft(_) => -1
    case EndWait(_) => -1
    case SuspendAtWait(_) => -1
    case Steal(_, _) => -2
    case PromoteSelf(_) => -2
    case FinRest(_) => -6
    case _ => if IsFinishing(a) then -3 else 0
  }

  // ------------------------------------------------------------------ other iterations

  /** What the cost of iteration m depends on is as before, but for its left counter and
      for having been resumed. */
  predicate Kept(s: State, s': State, m: int)
    requires |s.ring| > 0 && |s'.ring| > 0 && m <= Started(s) && m <= Started(s')
  {
    var b, b' := Blk(s, m), Blk(s', m);
    && PhaseOf(s', m) == PhaseOf(s, m)
    && (!PhaseOf(s, m).Done? ==>
          b'.status == b.status || (b.status.PromotedSuspended? && b'.status.PromotedActive? && !Stalls(s, m)))
    && (PhaseOf(s, m) == Working(true) ==> SameTimes(b, b') && Blk(s', m - 1).stage >= Blk(s, m - 1).stage)
  }

  lemma KeptCost(s: State, s': State, m: int)
    requires |s.ring| > 0 && |s'.ring| > 0 && m <= Started(s) && m <= Started(s') && Kept(s, s', m)
    ensures Cost(s', m) <= Cost(s, m) + if PhaseOf(s, m) == Working(true) && Blk(s', m - 1).stage != Blk(s, m - 1).stage then 1 else 0
    ensures PhaseOf(s, m) == Working(true) && Blk(s', m).status != Blk(s, m).status && Blk(s', m - 1).stage == Blk(s, m - 1).stage
        ==> Cost(s', m) < Cost(s, m)
  {
  }

  /** Writing b to block k does not matter to an unfinished iteration m. */
  predicate Harmless(s: State, k: int, b: Block, m: int)
    requires |s.ring| > 0
  {
    var was := Blk(s, k);
    && (m == k ==>
          && SameTimes(was, b)
          && (b.status == was.status || (was.status.PromotedSuspended? && b.status.PromotedActive? && !Stalls(s, m))))
    && (m == k + 1 ==> b.stage >= was.stage)
  }

  /** The blocks that the cost of iteration m depends on are in the window. */
  predicate Near(s: State, m: int)
    requires m <= Started(s)
  {
    !PhaseOf(s, m).Done? ==> InWindow(s, m) && (PhaseOf(s, m) == Working(true) ==> InWindow(s, m - 1))
  }

  lemma CostIsNear(s: State, m: int)
    requires Inv(s) && 1 <= m <= Started(s)
    ensures Near(s, m)
  {
    if !PhaseOf(s, m).Done? {
      UnfinishedIsInWindow(s, m);
      if PhaseOf(s, m) == Working(true) { LeftIsInWindow(s, m); }
    }
  }

  lemma WrittenBlock(s: State, s': State, k: int, b: Block, m: int)
    requires |s.ring| > 0 && m <= Started(s) && m <= Started(s') && Near(s, m) && PhaseOf(s', m) == PhaseOf(s, m)
    requires InWindow(s, k) && s'.ring == SetBlk(s, k, b).ring && (!PhaseOf(s, m).Done? ==> Harmless(s, k, b, m))
    ensures Kept(s, s', m)
    ensures !PhaseOf(s, m).Done? ==> Blk(s', m) == if m == k then b else Blk(s, m)
    ensures PhaseOf(s, m) == Working(true) ==> Blk(s', m - 1) == if m - 1 == k then b else Blk(s, m - 1)
  {
    if !PhaseOf(s, m).Done? {
      SetBlkFrame(s, k, b, m);
      if PhaseOf(s, m) == Working(true) { SetBlkFrame(s, k, b, m - 1); }
    }
  }

  /** No counter of an iteration ever goes back. */
  lemma CountersRise(s: State, a: Step)
    requires Inv(s) && Can(s, a) && MovesCounter(a)
    ensures BlkAt(s, a.w).stage <= StageSet(a) && InWindow(s, IterAt(s, a.w))
    ensures Do(s, a).ring == SetBlk(s, IterAt(s, a.w), BlkAt(s, a.w).(stage := StageSet(a))).ring
  {
    if a.ExitStage? { ExiterFacts(s, a.w); } else { RunnerFacts(s, a.w); }
  }

  function StageSet(a: Step): int {
    match a
    case Advance(_, stage) => stage
    case BeginWait(_, stage) => stage
    case Leave(_) => POST_CLEANUP_STAGE
    case _ => FINISH_STAGE
  }

  lemma MovedCounterKeeps(s: State, a: Step, m: int)
    requires Inv(s) && Can(s, a) && MovesCounter(a) && 1 <= m <= Started(s) && m != IterAt(s, a.w)
    ensures m <= Started(Do(s, a))
    ensures Cost(Do(s, a), m) <= Cost(s, m) + if m == IterAt(s, a.w) + 1 then 1 else 0
  {
    var n := IterAt(s, a.w);
    OthersStay(s, a, m);
    CostIsNear(s, m);
    CountersRise(s, a);
    WrittenBlock(s, Do(s, a), n, Blk(s, n).(stage := StageSet(a)), m);
    KeptCost(s, Do(s, a), m);
  }

  /** One write that leaves the counter and, to iteration m, the status. */
  lemma WriteKeeps(s: State, s': State, k: int, b: Block, m: int)
    requires Inv(s) && 1 <= m <= Started(s) && m <= Started(s') && PhaseOf(s', m) == PhaseOf(s, m)
    requires InWindow(s, k) && s'.ring == SetBlk(s, k, b).ring && b.stage == Blk(s, k).stage
    requires m == k && !PhaseOf(s, m).Done? ==> SameTimes(Blk(s, k), b) && b.status == Blk(s, k).status
    ensures Cost(s', m) <= Cost(s, m)
  {
    CostIsNear(s, m);
    WrittenBlock(s, s', k, b, m);
    KeptCost(s, s', m);
  }

  lemma FreeingLeftKeeps(s: State, a: Step, m: int)
    requires Inv(s) && Can(s, a) && (a.ExitFreeLeft? || a.FinFreeLeft?) && 1 <= m <= Started(s) && m != IterAt(s, a.w)
    ensures m <= Started(Do(s, a)) && Cost(Do(s, a), m) <= Cost(s, m)
  {
    var n := IterAt(s, a.w);
    if a.ExitFreeLeft? { ExiterFacts(s, a.w); } else { RunnerFacts(s, a.w); }
    OthersStay(s, a, m);
    WriteKeeps(s, Do(s, a), n - 1, Freed(Blk(s, n - 1)), m);
  }

  lemma FreeingOwnKeeps(s: State, w: nat, m: int)
    requires Inv(s) && Can(s, ExitFreeOwn(w)) && 1 <= m <= Started(s) && m != IterAt(s, w)
    ensures m <= Started(Do(s, ExitFreeOwn(w))) && Cost(Do(s, ExitFreeOwn(w)), m) <= Cost(s, m)
  {
    ExiterFacts(s, w);
    OthersStay(s, ExitFreeOwn(w), m);
    WriteKeeps(s, Do(s, ExitFreeOwn(w)), IterAt(s, w), Freed(BlkAt(s, w)), m);
  }

  /** Promotion and looking to the left concern the own block alone. */
  lemma OwnWriteKeeps(s: State, a: Step, m: int)
    requires Inv(s) && Can(s, a) && (a.ReadLeft? || a.Steal? || a.PromoteSelf?) && 1 <= m <= Started(s) && m != IterAt(s, a.w)
    ensures m <= Started(Do(s, a)) && Cost(Do(s, a), m) <= Cost(s, m)
  {
    var n := IterAt(s, a.w);
    RunnerFacts(s, a.w);
    OthersStay(s, a, m);
    var b := if a.ReadLeft? then Blk(s, n).(cachedLeft := Blk(s, n - 1).stage) else Blk(s, n).(status := PromotedActive);
    WriteKeeps(s, Do(s, a), n, b, m);
  }

  lemma SameRingKeeps(s: State, a: Step, m: int)
    requires Inv(s) && Can(s, a) && 1 <= m <= Started(s) && !(IsOwnOf(s, a, m)) && Do(s, a).ring == s.ring
    ensures m <= Started(Do(s, a)) && Cost(Do(s, a), m) <= Cost(s, m)
  {
    OthersStay(s, a, m);
    KeptCost(s, Do(s, a), m);
  }

  lemma ControlKeeps(s: State, a: Step, m: int)
    requires Inv(s) && Can(s, a) && IsControl(a) && 1 <= m <= Started(s)
    ensures m <= Started(Do(s, a)) && Cost(Do(s, a), m) <= Cost(s, m)
  {
    OthersStay(s, a, m);
    match a
    case StartIteration(w) =>
      var n := s.reserved;
      WriteKeepsOthers(s, Do(s, a), n, Blk(s, n).(status := StandardExec, iterNum := n, stage := FIRST_STAGE, cachedLeft := FIRST_STAGE), m);
    case StopLoop(w) => SameRingKeeps(s, a, m);
    case Throttle(w) =>
      NextIsOldest(s, w);
      if ReadyForReuse(NextBlk(s)) {
        WriteKeeps(s, Do(s, a), Oldest(s), NextBlk(s).(counter := NextBlk(s).counter - CLEANUP_THROTTLE_VAL), m);
      } else {
        SameRingKeeps(s, a, m);
      }
    case SuspendAtThrottle(w) =>
      NextIsOldest(s, w);
      WriteKeeps(s, Do(s, a), Oldest(s), NextBlk(s).(counter := NextBlk(s).counter - CLEANUP_THROTTLE_VAL), m);
    case ReserveNext(w) =>
      NextIsOldest(s, w);
      WriteKeeps(s, Do(s, a), Oldest(s), NextBlk(s).(counter := CLEANUP_INITIAL_VAL, inUse := true), m);
  }

  lemma WriteKeepsOthers(s: State, s': State, k: int, b: Block, m: int)
    requires Inv(s) && 1 <= m <= Started(s) && m <= Started(s') && PhaseOf(s', m) == PhaseOf(s, m)
    requires InWindow(s, k) && s'.ring == SetBlk(s, k, b).ring && m != k && m != k + 1
    ensures Cost(s', m) <= Cost(s, m)
  {
    CostIsNear(s, m);
    WrittenBlock(s, s', k, b, m);
    KeptCost(s, s', m);
  }

  /** Resuming the iteration to the right costs what it was to cost. */
  lemma ResumingKeeps(s: State, n: int, s': State, m: int)
    requires Inv(s) && 1 <= n <= Started(s) && InWindow(s, n) && RightIsReady(s, n)
    requires 1 <= m <= Started(s) == Started(s') && PhaseOf(s', m) == PhaseOf(s, m) && s'.ring == ResumeRight(s, n).ring
    ensures Cost(s', m) <= Cost(s, m) - if m == n + 1 then 1 else 0
    ensures n + 1 <= Started(s)
  {
    RightIsNext(s, n);
    CostIsNear(s, m);
    WrittenBlock(s, s', n + 1, Blk(s, n + 1).(status := PromotedActive), m);
    KeptCost(s, s', m);
  }

  lemma SuspendedKeeps(s: State, w: nat, m: int)
    requires Inv(s) && Can(s, SuspendAtWait(w)) && Stalls(s, IterAt(s, w)) && 1 <= m <= Started(s) && m != IterAt(s, w)
    ensures m <= Started(Suspended(s, w)) && Cost(Suspended(s, w), m) <= Cost(s, m)
  {
    RunnerFacts(s, w);
    var n := IterAt(s, w);
    assert PhaseOf(Suspended(s, w), m) == PhaseOf(s, m);
    WriteKeeps(s, Suspended(s, w), n, Blk(s, n).(status := PromotedSuspended), m);
  }

  lemma SuspendKeeps(s: State, w: nat, m: int)
    requires Inv(s) && Can(s, SuspendAtWait(w)) && 1 <= m <= Started(s) && m != IterAt(s, w)
    ensures m <= Started(DoSuspend(s, w)) && Cost(DoSuspend(s, w), m) <= Cost(s, m)
  {
    if Stalls(s, IterAt(s, w)) {
      var n, s1 := IterAt(s, w), Suspended(s, w);
      SuspendShape(s, w);
      SuspendedKeeps(s, w, m);
      if RightIsReady(s1, n) {
        SuspendedKeepsInv(s, w);
        ResumingKeeps(s1, n, DoSuspend(s, w), m);
      }
    }
  }

  lemma FinRestKeeps(s: State, w: nat, m: int)
    requires Inv(s) && Can(s, FinRest(w)) && 1 <= m <= Started(s) && m != IterAt(s, w)
    ensures m <= Started(DoFinRest(s, w)) && Cost(DoFinRest(s, w), m) <= Cost(s, m)
  {
    RunnerFacts(s, w);
    OthersStay(s, FinRest(w), m);
    CostIsNear(s, m);
    var n, s' := IterAt(s, w), DoFinRest(s, w);
    var s1 := if RightIsReady(s, n) then ResumeRight(s, n) else s;
    if RightIsReady(s, n) { ResumingKeeps(s, n, s1, m); }
    GivenUpKeeps(s1, s', n, m);
  }

  lemma GivenUpKeeps(s1: State, s': State, n: int, m: int)
    requires |s1.ring| > 0 && 1 <= m <= Started(s1) && m <= Started(s') && PhaseOf(s', m) == PhaseOf(s1, m) && Near(s1, m)
    requires InWindow(s1, n) && s'.ring == SetBlk(s1, n, Freed(Blk(s1, n))).ring && m != n
    ensures Cost(s', m) <= Cost(s1, m)
  {
    WrittenBlock(s1, s', n, Freed(Blk(s1, n)), m);
    KeptCost(s1, s', m);
  }

  lemma ImplicitStealKeeps(s: State, t: nat, w: nat, m: int)
    requires Inv(s) && Can(s, ImplicitSteal(t, w)) && 1 <= m <= Started(s)
    ensures m <= Started(DoImplicitSteal(s, t, w)) && Cost(DoImplicitSteal(s, t, w), m) <= Cost(s, m)
  {
    RunnerFacts(s, w);
    OthersStay(s, ImplicitSteal(t, w), m);
    var n, s' := IterAt(s, w), DoImplicitSteal(s, t, w);
    if s'.ring == s.ring {
      KeptCost(s, s', m);
    } else {
      ResumingKeeps(s, n, s', m);
    }
  }

  /** No step makes another iteration cost more, but that the next one has to look at a
      counter that has moved. */
  lemma OthersCostNoMore(s: State, a: Step, m: int)
    requires Inv(s) && Can(s, a) && 1 <= m <= Started(s) && !IsOwnOf(s, a, m)
    ensures m <= Started(Do(s, a))
    ensures Cost(Do(s, a), m) <= Cost(s, m) + if MovesCounter(a) && m == IterAt(s, a.w) + 1 then 1 else 0
  {
    if MovesCounter(a) {
      MovedCounterKeeps(s, a, m);
    } else if IsControl(a) {
      ControlKeeps(s, a, m);
    } else {
      match a
      case ReadLeft(w) => OwnWriteKeeps(s, a, m);
      case EndWait(w) => SameRingKeeps(s, a, m);
      case PopIteration(w) => SameRingKeeps(s, a, m);
      case ExitFreeLeft(w) => FreeingLeftKeeps(s, a, m);
      case ExitFreeOwn(w) => FreeingOwnKeeps(s, w, m);
      case Steal(t, w) => OwnWriteKeeps(s, a, m);
      case PromoteSelf(w) => OwnWriteKeeps(s, a, m);
      case SuspendAtWait(w) => SuspendKeeps(s, w, m);
      case FinFreeLeft(w) => FreeingLeftKeeps(s, a, m);
      case FinRest(w) => FinRestKeeps(s, w, m);
      case ImplicitSteal(t, w) => ImplicitStealKeeps(s, t, w, m);
    }
  }

  // -------------------------------------------------------------------- the own iteration

  lemma OwnWait(s: State, a: Step)
    requires Inv(s) && Can(s, a) && (a.Advance? || a.BeginWait? || a.EndWait?)
    ensures IterAt(s, a.w) <= Started(Do(s, a))
    ensures Cost(Do(s, a), IterAt(s, a.w)) <= Cost(s, IterAt(s, a.w)) + OwnChange(a)
  {
  }

  lemma OwnLook(s: State, w: nat)
    requires Inv(s) && Can(s, ReadLeft(w))
    ensures IterAt(s, w) <= Started(Do(s, ReadLeft(w)))
    ensures Do(s, ReadLeft(w)) != s ==> Cost(Do(s, ReadLeft(w)), IterAt(s, w)) <= Cost(s, IterAt(s, w)) - 1
  {
    var n := IterAt(s, w);
    RunnerFacts(s, w);
    var b := Blk(s, n).(cachedLeft := Blk(s, n - 1).stage);
    SetBlkFrame(s, n, b, n - 1);
    if b == Blk(s, n) {
      assert s.ring[Slot(|s.ring|, n) := b] == s.ring;
    }
  }

  lemma OwnFinishing(s: State, a: Step)
    requires Inv(s) && Can(s, a) && IsFinishing(a)
    ensures IterAt(s, a.w) <= Started(Do(s, a))
    ensures Cost(Do(s, a), IterAt(s, a.w)) <= Cost(s, IterAt(s, a.w)) + OwnChange(a)
  {
    FinishingGoesFurther(s, a);
    FinishingPhases(s, a);
    FinishingKeepsStatus(s, a);
  }

  lemma FinishingPhases(s: State, a: Step)
    requires Inv(s) && Can(s, a) && IsFinishing(a)
    ensures IterAt(s, a.w) <= Started(Do(s, a))
    ensures PhaseAt(s, a.w) != Working(true) && !PhaseOf(Do(s, a), IterAt(s, a.w)).Working?
    ensures a.FinRest? ==> PhaseAt(s, a.w).FinStaged? && PhaseOf(Do(s, a), IterAt(s, a.w)).Done?
    ensures a.ExitFreeOwn? ==> PhaseOf(Do(s, a), IterAt(s, a.w)).Done?
  {
  }

  /** On its way out an iteration waits no more, and is not demoted. */
  lemma FinishingKeepsStatus(s: State, a: Step)
    requires Inv(s) && Can(s, a) && IsFinishing(a)
    ensures IterAt(s, a.w) <= Started(Do(s, a))
    ensures PhaseOf(Do(s, a), IterAt(s, a.w)).Done? || Blk(Do(s, a), IterAt(s, a.w)).status == BlkAt(s, a.w).status
  {
    FinishingPhases(s, a);
    match a
    case FinFreeLeft(w) =>
      RunnerFacts(s, w);
      SetBlkFrame(s, IterAt(s, w) - 1, Freed(Blk(s, IterAt(s, w) - 1)), IterAt(s, w));
    case ExitFreeLeft(w) =>
      ExiterFacts(s, w);
      SetBlkFrame(s, IterAt(s, w) - 1, Freed(Blk(s, IterAt(s, w) - 1)), IterAt(s, w));
    case _ =>
  }

  lemma OwnPromotion(s: State, a: Step)
    requires Inv(s) && Can(s, a) && (a.Steal? || a.PromoteSelf?)
    ensures IterAt(s, a.w) <= Started(Do(s, a))
    ensures Cost(Do(s, a), IterAt(s, a.w)) <= Cost(s, IterAt(s, a.w)) + OwnChange(a)
  {
    var n := IterAt(s, a.w);
    RunnerFacts(s, a.w);
    SetBlkFrame(s, n, Blk(s, n).(status := PromotedActive), n - 1);
  }

  lemma OwnSuspension(s: State, w: nat)
    requires Inv(s) && Can(s, SuspendAtWait(w))
    ensures IterAt(s, w) <= Started(DoSuspend(s, w))
    ensures DoSuspend(s, w) != s ==> Cost(DoSuspend(s, w), IterAt(s, w)) <= Cost(s, IterAt(s, w)) - 1
  {
    if Stalls(s, IterAt(s, w)) {
      var n, s1 := IterAt(s, w), Suspended(s, w);
      RunnerFacts(s, w);
      SuspendShape(s, w);
      SetBlkFrame(s, n, Blk(s, n).(status := PromotedSuspended), n - 1);
      if RightIsReady(s1, n) {
        SuspendedKeepsInv(s, w);
        assert PhaseOf(s1, n) == PhaseOf(s, n);
        ResumingKeeps(s1, n, DoSuspend(s, w), n);
      }
    }
  }

  /** Each step pays with the cost of its own iteration, unless it changes nothing. */
  lemma OwnCostChanges(s: State, a: Step)
    requires Inv(s) && Can(s, a) && IsOwn(a)
    ensures IterAt(s, a.w) <= Started(Do(s, a))
    ensures Do(s, a) != s ==> Cost(Do(s, a), IterAt(s, a.w)) <= Cost(s, IterAt(s, a.w)) + OwnChange(a)
  {
    if IsFinishing(a) {
      OwnFinishing(s, a);
    } else {
      match a
      case ReadLeft(w) => OwnLook(s, w);
      case SuspendAtWait(w) => OwnSuspension(s, w);
      case Steal(_, _) => OwnPromotion(s, a);
      case PromoteSelf(_) => OwnPromotion(s, a);
      case _ => OwnWait(s, a);
    }
  }

  // ------------------------------------------------------------- control and its parents

  predicate HasParent(x: Worker) { !x.parentResume.NoParent? }

  /** The steps of control up to the end of its next turn. */
  function ControlCost(pc: ControlPc): nat {
    match pc
    case Spawned => 5
    case Slow => 4
    case Blocked => 3
    case Past => 2
    case Next => 1
    case Ended => 0
  }

  /** The places where control is, and the workers that are to resume it. */
  function ParentCost(s: State): nat { ControlCost(s.pc) + Count(s.workers, HasParent) }

  function ParentChange(a: Step): int {
    match a
    case PromoteSelf(_) => 1
    case FinFreeLeft(_) => 1
    case FinRest(_) => 1
    case StartIteration(_) => 4
    case _ => if IsControl(a) then -1 else 0
  }

  lemma MacroParents(s: State, a: Step)
    requires Can(s, a) && (IsMacro(a) || SetsFinishStage(a) || a.ExitFreeLeft?)
    ensures ParentCost(Do(s, a)) == ParentCost(s)
  {
  }

  lemma OneWorkerParents(s: State, s': State, w: nat, x: Worker)
    requires w < |s.workers| && s'.workers == s.workers[w := x]
    ensures Count(s'.workers, HasParent)
         == Count(s.workers, HasParent) - (if HasParent(s.workers[w]) then 1 else 0) + if HasParent(x) then 1 else 0
  {
    CountUpdate(s.workers, w, x, HasParent);
  }

  lemma ControlParents(s: State, a: Step)
    requires Inv(s) && Can(s, a) && IsControl(a)
    ensures ParentCost(Do(s, a)) <= ParentCost(s) + ParentChange(a)
  {
    assert WorkerOk(s, a.w);
    assert s.workers[a.w := s.workers[a.w]] == s.workers;
    OneWorkerParents(s, Do(s, a), a.w, Do(s, a).workers[a.w]);
  }

  lemma PromotionParents(s: State, a: Step)
    requires Inv(s) && Can(s, a) && (a.Steal? || a.PromoteSelf?)
    ensures ParentCost(Do(s, a)) <= ParentCost(s) + ParentChange(a)
  {
    match a
    case Steal(t, w) =>
      var s1 := SetWorker(s, w, s.workers[w].(holdsControl := false));
      OneWorkerParents(s, s1, w, s1.workers[w]);
      OneWorkerParents(s1, Do(s, a), t, RUNNING_CONTROL);
    case PromoteSelf(w) => OneWorkerParents(s, Do(s, a), w, Do(s, a).workers[w]);
  }

  lemma FinishParents(s: State, a: Step)
    requires Inv(s) && Can(s, a) && (a.PopIteration? || a.ExitFreeOwn? || a.FinFreeLeft? || a.SuspendAtWait?)
    ensures ParentCost(Do(s, a)) <= ParentCost(s) + ParentChange(a)
  {
    assert s.workers[a.w := s.workers[a.w]] == s.workers;
    OneWorkerParents(s, Do(s, a), a.w, Do(s, a).workers[a.w]);
  }

  /** Taking over the implicit parent brings control on its way again. */
  lemma TakenParent(s: State, parent: ParentResume, t: nat)
    requires Shape(s) && t < |s.workers|
    ensures ParentCost(TakeParent(s, parent, t)) <= ParentCost(s)
  {
    if ParentIsReady(s, parent) { OneWorkerParents(s, TakeParent(s, parent, t), t, RUNNING_CONTROL); }
  }

  lemma FinRestParents(s: State, w: nat)
    requires Inv(s) && Can(s, FinRest(w))
    ensures ParentCost(DoFinRest(s, w)) <= ParentCost(s) + 1
  {
    var s' := DoFinRest(s, w);
    if RightIsReady(s, IterAt(s, w)) {
      OneWorkerParents(s, s', w, s'.workers[w]);
    } else {
      IdleParents(s, w);
    }
  }

  lemma IdleParents(s: State, w: nat)
    requires Inv(s) && Can(s, FinRest(w)) && !RightIsReady(s, IterAt(s, w))
    ensures ParentCost(DoFinRest(s, w)) <= ParentCost(s)
  {
    var n := IterAt(s, w);
    var s2 := SetPhase(SetBlk(s, n, Freed(Blk(s, n))), n, Done);
    var s3 := SetWorker(s2, w, IDLE);
    OneWorkerParents(s, s3, w, IDLE);
    TakenParent(s3, Flagged(Blk(s2, n), s.workers[w].parentResume), w);
  }

  /** Asking a worker for work leaves it without a parent. */
  lemma ImplicitStealParents(s: State, t: nat, w: nat)
    requires Inv(s) && Can(s, ImplicitSteal(t, w))
    ensures ParentCost(DoImplicitSteal(s, t, w)) <= ParentCost(s) - if HasParent(s.workers[w]) then 1 else 0
  {
    var x, s' := s.workers[w], DoImplicitSteal(s, t, w);
    var s1 := SetWorker(s, w, x.(parentResume := NoParent));
    assert WorkerOk(s, t);
    OneWorkerParents(s, s1, w, x.(parentResume := NoParent));
    if ParentIsReady(s, x.parentResume) {
      TakenParent(s1, x.parentResume, t);
    } else if RightIsReady(s1, IterAt(s, w)) {
      OneWorkerParents(s1, s', t, s'.workers[t]);
    }
  }

  lemma ParentsChange(s: State, a: Step)
    requires Inv(s) && Can(s, a)
    ensures ParentCost(Do(s, a)) <= ParentCost(s) + ParentChange(a)
  {
    if IsControl(a) {
      ControlParents(s, a);
    } else if IsMacro(a) || SetsFinishStage(a) || a.ExitFreeLeft? {
      MacroParents(s, a);
    } else {
      match a
      case Steal(_, _) => PromotionParents(s, a);
      case PromoteSelf(_) => PromotionParents(s, a);
      case FinRest(w) => FinRestParents(s, w);
      case ImplicitSteal(t, w) => ImplicitStealParents(s, t, w);
      case _ => FinishParents(s, a);
    }
  }
}
