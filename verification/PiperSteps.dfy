/** The steps of the runtime. Each region under one block lock is one step; so
    is each access to a stage counter outside of a lock. */
module PiperSteps {
  import opened PiperState

  datatype Step =
    | StartIteration(w: nat)
    | StopLoop(w: nat)
    | Advance(w: nat, stage: int)
    | BeginWait(w: nat, stage: int)
    | ReadLeft(w: nat)
    | EndWait(w: nat)
    | Leave(w: nat)
    | PopIteration(w: nat)
    | ExitStage(w: nat)
    | ExitFreeLeft(w: nat)
    | ExitFreeOwn(w: nat)
    | Steal(t: nat, w: nat)
    | PromoteSelf(w: nat)
    | SuspendAtWait(w: nat)
    | FinFreeLeft(w: nat)
    | FinStage(w: nat)
    | FinRest(w: nat)
    | ImplicitSteal(t: nat, w: nat)
    | Throttle(w: nat)
    | SuspendAtThrottle(w: nat)
    | ReserveNext(w: nat)

  // --------------------------------------------------------------- small updates

  function SetWorker(s: State, w: nat, x: Worker): State
    requires w < |s.workers|
  {
    s.(workers := s.workers[w := x])
  }

  function SetPhase(s: State, n: int, p: Phase): State
    requires 1 <= n <= Started(s)
  {
    s.(phases := s.phases[n - 1 := p])
  }

  predicate ReadyForReuse(b: Block) { b.counter <= CLEANUP_THROTTLE_VAL }

  predicate ReadyToResumeAfterThrottle(b: Block) { b.counter <= 0 }

  /** The block after one of its two users is done with it. */
  function Freed(b: Block): Block {
    var c := b.(counter := b.counter - CLEANUP_FINISH_ITER_VAL);
    if ReadyForReuse(c) then c.(status := Finished, inUse := false) else c
  }

  function Flagged(b: Block, parent: ParentResume): ParentResume {
    if ReadyToResumeAfterThrottle(b) then ThrottleSuspend else parent
  }

  /** A wait of iteration n cannot be satisfied yet. */
  predicate Stalls(s: State, n: int)
    requires |s.ring| > 0
  {
    Blk(s, n - 1).stage <= Blk(s, n).stage
  }

  /** The block to the right of iteration n's holds a suspended iteration that can go on. */
  predicate RightIsReady(s: State, n: int)
    requires |s.ring| > 0
  {
    Blk(s, n + 1).status.PromotedSuspended? && !Stalls(s, n + 1)
  }

  /** Resumes whatever iteration that block holds. */
  function ResumeRight(s: State, n: int): State
    requires |s.ring| > 0
  {
    SetBlk(s, n + 1, Blk(s, n + 1).(status := PromotedActive))
  }

  function Promote(s: State, n: int): State
    requires |s.ring| > 0
  {
    SetBlk(s, n, Blk(s, n).(status := PromotedActive))
  }

  predicate Works(s: State, w: nat) {
    && |s.ring| > 0 && w < |s.workers| && s.workers[w].task.RunsIter? && 1 <= s.workers[w].task.n <= Started(s)
  }

  predicate Exits(s: State, w: nat) {
    && |s.ring| > 0 && w < |s.workers| && s.workers[w].task.RunsExit? && 1 <= s.workers[w].task.n <= Started(s)
  }

  predicate Controls(s: State, w: nat) {
    |s.ring| > 0 && w < |s.workers| && s.workers[w].task.RunsControl?
  }

  predicate IdleAt(s: State, t: nat) {
    t < |s.workers| && s.workers[t].task.Idle?
  }

  function IterAt(s: State, w: nat): int
    requires Works(s, w) || Exits(s, w)
  {
    s.workers[w].task.n
  }

  function PhaseAt(s: State, w: nat): Phase
    requires Works(s, w) || Exits(s, w)
  {
    PhaseOf(s, IterAt(s, w))
  }

  function BlkAt(s: State, w: nat): Block
    requires Works(s, w) || Exits(s, w)
  {
    Blk(s, IterAt(s, w))
  }

  /** The block that the next iteration is to use. */
  function NextBlk(s: State): Block
    requires |s.ring| > 0
  {
    Blk(s, Started(s) + 1)
  }

  // ------------------------------------------------------------------ guards

  predicate Can(s: State, a: Step) {
    match a
    case StartIteration(w) => Controls(s, w) && s.pc.Next?
    case StopLoop(w) => Controls(s, w) && s.pc.Next?
    case Advance(w, stage) =>
      Works(s, w) && PhaseAt(s, w) == Working(false) && BlkAt(s, w).stage <= stage < FINAL_STAGE
    case BeginWait(w, stage) =>
      Works(s, w) && PhaseAt(s, w) == Working(false) && BlkAt(s, w).stage < FINAL_STAGE && BlkAt(s, w).stage <= stage <= FINAL_STAGE
    case ReadLeft(w) => Works(s, w) && PhaseAt(s, w) == Working(true)
    case EndWait(w) => Works(s, w) && PhaseAt(s, w) == Working(true) && BlkAt(s, w).cachedLeft > BlkAt(s, w).stage
    case Leave(w) => Works(s, w) && PhaseAt(s, w) == Working(false) && BlkAt(s, w).stage == FINAL_STAGE
    case PopIteration(w) => Works(s, w) && PhaseAt(s, w).Leaving? && s.workers[w].holdsControl
    case ExitStage(w) => Exits(s, w) && PhaseAt(s, w).ExitPopped?
    case ExitFreeLeft(w) => Exits(s, w) && PhaseAt(s, w).ExitStaged?
    case ExitFreeOwn(w) => Exits(s, w) && PhaseAt(s, w).ExitFreedLeft?
    case Steal(t, w) => IdleAt(s, t) && Works(s, w) && s.workers[w].holdsControl
    case PromoteSelf(w) => Works(s, w) && PhaseAt(s, w) == Working(true) && s.workers[w].holdsControl
    case SuspendAtWait(w) => Works(s, w) && PhaseAt(s, w) == Working(true) && BlkAt(s, w).status.PromotedActive?
    case FinFreeLeft(w) => Works(s, w) && PhaseAt(s, w).Leaving? && !s.workers[w].holdsControl
    case FinStage(w) => Works(s, w) && PhaseAt(s, w).FinFreedLeft?
    case FinRest(w) => Works(s, w) && PhaseAt(s, w).FinStaged?
    case ImplicitSteal(t, w) =>
      IdleAt(s, t) && Works(s, w) && (PhaseAt(s, w).Working? || PhaseAt(s, w).Leaving?) && !s.workers[w].holdsControl
    case Throttle(w) => Controls(s, w) && s.pc.Spawned?
    case SuspendAtThrottle(w) => Controls(s, w) && s.pc.Slow?
    case ReserveNext(w) => Controls(s, w) && s.pc.Past?
  }

  // ------------------------------------------------------------------- effects

  const RUNNING_CONTROL := Worker(RunsControl, NoParent, false)
  const IDLE := Worker(Idle, NoParent, false)

  function DoStart(s: State, w: nat): State
    requires Controls(s, w) && s.pc.Next?
  {
    var n := s.reserved;
    var s1 := SetBlk(s, n, Blk(s, n).(status := StandardExec, iterNum := n, stage := FIRST_STAGE, cachedLeft := FIRST_STAGE));
    SetWorker(s1, w, Worker(RunsIter(n), NoParent, true)).(phases := s.phases + [Working(false)], pc := Spawned)
  }

  function SetStage(s: State, n: int, stage: int): State
    requires |s.ring| > 0
  {
    SetBlk(s, n, Blk(s, n).(stage := stage))
  }

  function DoSteal(s: State, t: nat, w: nat): State
    requires Can(s, Steal(t, w))
  {
    SetWorker(SetWorker(Promote(s, IterAt(s, w)), w, s.workers[w].(holdsControl := false)), t, RUNNING_CONTROL)
  }

  /** Hands the implicit parent of a worker to worker t, if there is one to hand over. */
  predicate ParentIsReady(s: State, parent: ParentResume) {
    parent.SelfSteal? || (parent.ThrottleSuspend? && s.resume.SuspendedControl?)
  }

  function TakeParent(s: State, parent: ParentResume, t: nat): State
    requires t < |s.workers|
  {
    if parent.SelfSteal? then SetWorker(s, t, RUNNING_CONTROL)
    else if ParentIsReady(s, parent) then SetWorker(s, t, RUNNING_CONTROL).(resume := ResumingControl, pc := Past)
    else s
  }

  function DoSuspend(s: State, w: nat): State
    requires Can(s, SuspendAtWait(w))
  {
    var n, x := IterAt(s, w), s.workers[w];
    if !Stalls(s, n) then s
    else
      var s1 := SetBlk(s, n, Blk(s, n).(status := PromotedSuspended));
      if RightIsReady(s1, n) then SetWorker(ResumeRight(s1, n), w, Worker(RunsIter(Blk(s1, n + 1).iterNum), x.parentResume, false))
      else if !x.parentResume.NoParent? then SetWorker(s1, w, RUNNING_CONTROL)
      else SetWorker(s1, w, IDLE)
  }

  function DoFreeLeft(s: State, n: int): State
    requires |s.ring| > 0
  {
    SetBlk(s, n - 1, Freed(Blk(s, n - 1)))
  }

  function DoFinFreeLeft(s: State, w: nat): State
    requires Can(s, FinFreeLeft(w))
  {
    var n, x := IterAt(s, w), s.workers[w];
    var s1 := DoFreeLeft(s, n);
    SetWorker(SetPhase(s1, n, FinFreedLeft), w, x.(parentResume := Flagged(Blk(s1, n - 1), x.parentResume)))
  }

  function DoFinRest(s: State, w: nat): State
    requires Can(s, FinRest(w))
  {
    var n, x := IterAt(s, w), s.workers[w];
    var resumes, right := RightIsReady(s, n), Blk(s, n + 1).iterNum;
    var s1 := if resumes then ResumeRight(s, n) else s;
    var s2 := SetPhase(SetBlk(s1, n, Freed(Blk(s1, n))), n, Done);
    var parent := Flagged(Blk(s2, n), x.parentResume);
    if resumes then SetWorker(s2, w, Worker(RunsIter(right), parent, false))
    else TakeParent(SetWorker(s2, w, IDLE), parent, w)
  }

  function DoImplicitSteal(s: State, t: nat, w: nat): State
    requires Can(s, ImplicitSteal(t, w))
  {
    var n, x := IterAt(s, w), s.workers[w];
    var s1 := SetWorker(s, w, x.(parentResume := NoParent));
    if ParentIsReady(s, x.parentResume) then TakeParent(s1, x.parentResume, t)
    else if RightIsReady(s1, n) then SetWorker(ResumeRight(s1, n), t, Worker(RunsIter(Blk(s1, n + 1).iterNum), NoParent, false))
    else s1
  }

  function DoThrottle(s: State): State
    requires |s.ring| > 0
  {
    var b := NextBlk(s);
    if ReadyForReuse(b) then SetBlk(s, Started(s) + 1, b.(counter := b.counter - CLEANUP_THROTTLE_VAL)).(pc := Past)
    else s.(pc := Slow)
  }

  function DoSuspendAtThrottle(s: State, w: nat): State
    requires Can(s, SuspendAtThrottle(w))
  {
    var b := NextBlk(s).(counter := NextBlk(s).counter - CLEANUP_THROTTLE_VAL);
    var s1 := SetBlk(s, Started(s) + 1, b);
    if ReadyForReuse(b) then s1.(pc := Past, resume := ResumingControl)
    else SetWorker(s1, w, IDLE).(pc := Blocked, resume := SuspendedControl)
  }

  function DoReserve(s: State): State
    requires |s.ring| > 0
  {
    var b := NextBlk(s);
    SetBlk(s, Started(s) + 1, b.(counter := CLEANUP_INITIAL_VAL, inUse := true))
      .(reserved := Started(s) + 1, pc := Next, resume := NormalCilk)
  }

  function Do(s: State, a: Step): State
    requires Can(s, a)
  {
    match a
    case StartIteration(w) => DoStart(s, w)
    case StopLoop(w) => SetWorker(s, w, IDLE).(pc := Ended)
    case Advance(w, stage) => SetStage(s, IterAt(s, w), stage)
    case BeginWait(w, stage) => SetPhase(SetStage(s, IterAt(s, w), stage), IterAt(s, w), Working(true))
    case ReadLeft(w) =>
      var n := IterAt(s, w);
      SetBlk(s, n, Blk(s, n).(cachedLeft := Blk(s, n - 1).stage))
    case EndWait(w) => SetPhase(s, IterAt(s, w), Working(false))
    case Leave(w) => SetPhase(SetStage(s, IterAt(s, w), POST_CLEANUP_STAGE), IterAt(s, w), Leaving)
    case PopIteration(w) => SetWorker(SetPhase(s, IterAt(s, w), ExitPopped), w, Worker(RunsExit(IterAt(s, w)), NoParent, false))
    case ExitStage(w) => SetPhase(SetStage(s, IterAt(s, w), FINISH_STAGE), IterAt(s, w), ExitStaged)
    case ExitFreeLeft(w) => SetPhase(DoFreeLeft(s, IterAt(s, w)), IterAt(s, w), ExitFreedLeft)
    case ExitFreeOwn(w) =>
      var n := IterAt(s, w);
      SetWorker(SetPhase(SetBlk(s, n, Freed(Blk(s, n))), n, Done), w, RUNNING_CONTROL)
    case Steal(t, w) => DoSteal(s, t, w)
    case PromoteSelf(w) => SetWorker(Promote(s, IterAt(s, w)), w, s.workers[w].(holdsControl := false, parentResume := SelfSteal))
    case SuspendAtWait(w) => DoSuspend(s, w)
    case FinFreeLeft(w) => DoFinFreeLeft(s, w)
    case FinStage(w) => SetPhase(SetStage(s, IterAt(s, w), FINISH_STAGE), IterAt(s, w), FinStaged)
    case FinRest(w) => DoFinRest(s, w)
    case ImplicitSteal(t, w) => DoImplicitSteal(s, t, w)
    case Throttle(w) => DoThrottle(s)
    case SuspendAtThrottle(w) => DoSuspendAtThrottle(s, w)
    case ReserveNext(w) => DoReserve(s)
  }
}
