/** The state of a pipeline under the runtime: a ring of iteration blocks, the
    iterations that use them, the control frame that starts iterations, and the
    workers that execute all of these. */
module PiperState {

  const CLEANUP_FINISH_ITER_VAL: int := 16
  const CLEANUP_THROTTLE_VAL: int := 1
  const CLEANUP_INITIAL_VAL: int := 2 * CLEANUP_FINISH_ITER_VAL + CLEANUP_THROTTLE_VAL

  // Stage counters as the runtime stores them.
  const FIRST_STAGE: int := 4
  const FINAL_STAGE: int := 0x4000_0000_0000_0000
  const POST_CLEANUP_STAGE: int := FINAL_STAGE + 1
  const FINISH_STAGE: int := FINAL_STAGE + 2

  datatype IterStatus = StandardExec | PromotedActive | PromotedSuspended | Finished

  datatype Block = Block(counter: int, inUse: bool, status: IterStatus, iterNum: int, stage: int, cachedLeft: int)

  /** How far the code of an iteration has come. Exit* is the way out of an
      iteration whose continuation was never stolen, Fin* that of a promoted one. */
  datatype Phase =
    | Working(waiting: bool) | Leaving
    | ExitPopped | ExitStaged | ExitFreedLeft
    | FinFreedLeft | FinStaged
    | Done

  datatype Task = Idle | RunsIter(n: int) | RunsExit(n: int) | RunsControl

  datatype ParentResume = NoParent | SelfSteal | ThrottleSuspend

  /** holdsControl: the control frame is on the worker's deque, below the
      iteration it runs. */
  datatype Worker = Worker(task: Task, parentResume: ParentResume, holdsControl: bool)

  /** Where the control frame continues: behind the spawn of an iteration, about
      to suspend, suspended at the throttle, past it, at the head of its loop. */
  datatype ControlPc = Spawned | Slow | Blocked | Past | Next | Ended

  datatype ResumeFlags = NormalCilk | SuspendedControl | ResumingControl

  datatype State = State(
    ring: seq<Block>,
    phases: seq<Phase>,     // of the iterations started so far
    reserved: int,          // the latest iteration that has a block
    workers: seq<Worker>,
    pc: ControlPc,
    resume: ResumeFlags)

  // ----------------------------------------------------------------- the ring

  /** The slot of iteration n; the ring starts with the blocks of 2 - k .. 1. */
  function Slot(k: nat, n: int): (i: nat)
    requires k > 0
    ensures i < k
    decreases if n < 0 then -n else 0, if n < 0 then 0 else n
  {
    if n < 0 then (if Slot(k, n + 1) == 0 then k - 1 else Slot(k, n + 1) - 1)
    else if n == 0 then 0
    else if Slot(k, n - 1) + 1 == k then 0 else Slot(k, n - 1) + 1
  }

  lemma SlotNext(k: nat, n: int)
    requires k > 0
    ensures Slot(k, n + 1) == if Slot(k, n) + 1 == k then 0 else Slot(k, n) + 1
  {
  }

  lemma {:induction false} SlotsOn(k: nat, n: int, d: nat)
    requires k > 0 && d <= k
    ensures Slot(k, n + d) == if Slot(k, n) + d < k then Slot(k, n) + d else Slot(k, n) + d - k
  {
    if d > 0 {
      SlotsOn(k, n, d - 1);
      SlotNext(k, n + d - 1);
    }
  }

  function Blk(s: State, n: int): Block
    requires |s.ring| > 0
  {
    s.ring[Slot(|s.ring|, n)]
  }

  function SetBlk(s: State, n: int, b: Block): State
    requires |s.ring| > 0
  {
    s.(ring := s.ring[Slot(|s.ring|, n) := b])
  }

  function Started(s: State): nat { |s.phases| }

  predicate InWindow(s: State, n: int) {
    s.reserved - |s.ring| < n <= s.reserved
  }

  /** Writing one iteration's block leaves the others in the window alone; one
      turn of the ring later the same slot comes up again. */
  lemma SetBlkFrame(s: State, n: int, b: Block, m: int)
    requires |s.ring| > 0 && n - |s.ring| < m < n + |s.ring|
    ensures Blk(SetBlk(s, n, b), m) == if m == n then b else Blk(s, m)
  {
    if m < n { SlotsOn(|s.ring|, m, n - m); } else { SlotsOn(|s.ring|, n, m - n); }
  }

  lemma SameSlot(s: State, n: int)
    requires |s.ring| > 0
    ensures Blk(s, n + |s.ring|) == Blk(s, n)
  {
    SlotsOn(|s.ring|, n, |s.ring|);
  }

  // ------------------------------------------------------------- counting workers

  function Count(ws: seq<Worker>, p: Worker -> bool): nat {
    if |ws| == 0 then 0 else Count(ws[..|ws| - 1], p) + if p(ws[|ws| - 1]) then 1 else 0
  }

  lemma {:induction false} CountUpdate(ws: seq<Worker>, w: nat, x: Worker, p: Worker -> bool)
    requires w < |ws|
    ensures Count(ws[w := x], p) == Count(ws, p) - (if p(ws[w]) then 1 else 0) + if p(x) then 1 else 0
  {
    var l := |ws| - 1;
    if w == l {
      assert ws[w := x][..l] == ws[..l];
    } else {
      assert ws[w := x][..l] == ws[..l][w := x];
      CountUpdate(ws[..l], w, x, p);
    }
  }

  lemma {:induction false} CountHas(ws: seq<Worker>, w: nat, p: Worker -> bool)
    requires w < |ws| && p(ws[w])
    ensures Count(ws, p) >= 1
  {
    if w < |ws| - 1 {
      CountHas(ws[..|ws| - 1], w, p);
    }
  }

  lemma {:induction false} CountHasTwo(ws: seq<Worker>, v: nat, w: nat, p: Worker -> bool)
    requires v < w < |ws| && p(ws[v]) && p(ws[w])
    ensures Count(ws, p) >= 2
  {
    if w < |ws| - 1 {
      CountHasTwo(ws[..|ws| - 1], v, w, p);
    } else {
      CountHas(ws[..|ws| - 1], v, p);
    }
  }

  lemma {:induction false} CountNone(ws: seq<Worker>, p: Worker -> bool)
    requires forall w | 0 <= w < |ws| :: !p(ws[w])
    ensures Count(ws, p) == 0
  {
    if |ws| > 0 {
      CountNone(ws[..|ws| - 1], p);
    }
  }

  lemma {:induction false} CountFinds(ws: seq<Worker>, p: Worker -> bool)
    returns (w: nat)
    requires Count(ws, p) >= 1
    ensures w < |ws| && p(ws[w])
  {
    if p(ws[|ws| - 1]) {
      w := |ws| - 1;
    } else {
      w := CountFinds(ws[..|ws| - 1], p);
    }
  }

  // ------------------------------------------------------------------- invariant

  function PhaseOf(s: State, n: int): Phase
    requires n <= Started(s)
  {
    if n <= 0 then Done else s.phases[n - 1]
  }

  predicate FreedLeft(p: Phase) { p.ExitFreedLeft? || p.FinFreedLeft? || p.FinStaged? || p.Done? }

  /** The stage counter says FINISH. */
  predicate StageDone(p: Phase) { p.ExitStaged? || p.ExitFreedLeft? || p.FinStaged? || p.Done? }

  predicate OwnFreed(s: State, n: int) { n <= Started(s) && PhaseOf(s, n).Done? }

  predicate LeftFreed(s: State, n: int) { n <= Started(s) && FreedLeft(PhaseOf(s, n)) }

  /** Control has counted itself at the block of iteration n. */
  predicate Arrived(s: State, n: int) {
    n == Started(s) + 1 - |s.ring| && (s.pc.Blocked? || s.pc.Past?)
  }

  /** What the cleanup counter of iteration n's block has to be. */
  function CounterOf(s: State, n: int): int {
    (if OwnFreed(s, n) then 0 else CLEANUP_FINISH_ITER_VAL)
    + (if LeftFreed(s, n + 1) then 0 else CLEANUP_FINISH_ITER_VAL)
    + (if Arrived(s, n) then 0 else CLEANUP_THROTTLE_VAL)
  }

  predicate StageOk(p: Phase, stage: int) {
    && (p.Working? ==> FIRST_STAGE <= stage <= FINAL_STAGE)
    && (p.Leaving? || p.ExitPopped? || p.FinFreedLeft? ==> stage == POST_CLEANUP_STAGE)
    && (StageDone(p) ==> stage == FINISH_STAGE)
  }

  predicate StatusOk(s: State, n: int)
    requires 1 <= n <= Started(s) && |s.ring| > 0
  {
    var st, p := Blk(s, n).status, PhaseOf(s, n);
    && (st.PromotedSuspended? ==> p == Working(true) && !StageFinallyDone(PhaseOf(s, n - 1)))
    && (st.StandardExec? ==> p.Done? || n == Started(s))
    && (p.FinFreedLeft? || p.FinStaged? ==> st.PromotedActive?)
    && (p.ExitPopped? || p.ExitStaged? || p.ExitFreedLeft? ==> st.StandardExec?)
  }

  /** The finish step of the iteration, with its look to the right, is complete. */
  predicate StageFinallyDone(p: Phase) { p.ExitStaged? || p.ExitFreedLeft? || p.Done? }

  predicate IterOk(s: State, n: int)
    requires |s.ring| > 0
  {
    var b := Blk(s, n);
    && b.counter == CounterOf(s, n) && b.inUse == (b.counter > 1)
    && (b.status.Finished? <==> b.counter <= 1 || n > Started(s))
    && (0 <= n <= Started(s) ==> StageOk(PhaseOf(s, n), b.stage))
    && (1 <= n <= Started(s) ==> b.iterNum == n && StatusOk(s, n))
    && (n <= 0 ==> !b.status.PromotedSuspended?)
  }

  /** A stage past its waits has a left neighbour past its own. */
  predicate WaitsOk(s: State, n: int)
    requires 1 <= n <= Started(s) && |s.ring| > 0
  {
    && (!PhaseOf(s, n).Working? ==> !PhaseOf(s, n - 1).Working?)
    && (InWindow(s, n) && PhaseOf(s, n) == Working(false) && Blk(s, n).stage == FINAL_STAGE ==> !PhaseOf(s, n - 1).Working?)
    && (InWindow(s, n) && !LeftFreed(s, n) ==> Blk(s, n).cachedLeft <= Blk(s, n - 1).stage)
  }

  /** A block is only reused when nobody needs it any more. */
  predicate GoneOk(s: State, n: int) {
    OwnFreed(s, n) && LeftFreed(s, n + 1)
  }

  predicate WorkerOk(s: State, w: nat)
    requires w < |s.workers| && |s.ring| > 0
  {
    var x := s.workers[w];
    && (x.task.RunsIter? ==> (
          && InWindow(s, x.task.n) && 1 <= x.task.n <= Started(s)
          && !Blk(s, x.task.n).status.PromotedSuspended?
          && (var p := PhaseOf(s, x.task.n); p.Working? || p.Leaving? || p.FinFreedLeft? || p.FinStaged?)
          && (Blk(s, x.task.n).status.StandardExec? ==> x.holdsControl)))
    && (x.task.RunsExit? ==> (
          && x.task.n == Started(s) == s.reserved && Started(s) >= 1 && s.pc.Spawned?
          && (var p := PhaseOf(s, x.task.n); p.ExitPopped? || p.ExitStaged? || p.ExitFreedLeft?)))
    && (x.task.RunsControl? ==> s.pc.Spawned? || s.pc.Slow? || s.pc.Past? || s.pc.Next?)
    && (!x.task.RunsIter? ==> x.parentResume.NoParent? && !x.holdsControl)
    && (x.holdsControl ==> (
          && x.task.RunsIter? && x.task.n == Started(s) && s.pc.Spawned? && x.parentResume.NoParent?
          && Blk(s, x.task.n).status.StandardExec?))
    && (x.parentResume.SelfSteal? ==> x.task.n == Started(s) && s.pc.Spawned?)
    && (x.parentResume.ThrottleSuspend? ==> (
          && s.pc.Blocked?
          && (var p := PhaseOf(s, x.task.n); p.FinFreedLeft? || p.FinStaged? || StageDone(PhaseOf(s, x.task.n - 1)))))
  }

  /** The places the control frame can be in, as far as workers hold it. */
  predicate HasControl(x: Worker) {
    x.task.RunsControl? || x.task.RunsExit? || x.holdsControl || x.parentResume.SelfSteal?
  }

  predicate ResumesThrottled(x: Worker) { x.parentResume.ThrottleSuspend? }

  function Runs(n: int): Worker -> bool {
    (x: Worker) => (x.task.RunsIter? || x.task.RunsExit?) && x.task.n == n
  }

  predicate IsActive(s: State, n: int)
    requires 1 <= n <= Started(s) && |s.ring| > 0
  {
    !PhaseOf(s, n).Done? && !Blk(s, n).status.PromotedSuspended?
  }

  predicate RunnersOk(s: State, n: int)
    requires 1 <= n <= Started(s) && |s.ring| > 0
  {
    Count(s.workers, Runs(n)) == if InWindow(s, n) && IsActive(s, n) then 1 else 0
  }

  predicate Shape(s: State) {
    && |s.ring| >= 2
    && s.reserved == Started(s) + (if s.pc.Next? || s.pc.Ended? then 1 else 0)
    && (s.resume.SuspendedControl? <==> s.pc.Blocked?)
  }

  /** The control frame is in exactly one place, and a control frame suspended
      at the throttle is to be released by one worker once its block is free. */
  predicate ControlOk(s: State)
    requires |s.ring| > 0
  {
    && Count(s.workers, HasControl) + (if s.pc.Blocked? || s.pc.Ended? then 1 else 0) == 1
    && Count(s.workers, ResumesThrottled)
       == (if s.pc.Blocked? && Blk(s, Started(s) + 1 - |s.ring|).counter == 0 then 1 else 0)
    && (s.pc.Past? ==> Blk(s, Started(s) + 1 - |s.ring|).counter == 0)
  }

  ghost predicate ItersOk(s: State)
    requires |s.ring| > 0
  {
    && (forall n {:trigger IterOk(s, n)} | InWindow(s, n) :: IterOk(s, n))
    && (forall n {:trigger WaitsOk(s, n)} | 1 <= n <= Started(s) :: WaitsOk(s, n))
    && (forall n {:trigger GoneOk(s, n)} | 0 <= n <= s.reserved - |s.ring| :: GoneOk(s, n))
  }

  ghost predicate WorkersOk(s: State)
    requires |s.ring| > 0
  {
    && (forall w: nat {:trigger WorkerOk(s, w)} | w < |s.workers| :: WorkerOk(s, w))
    && (forall n {:trigger RunnersOk(s, n)} | 1 <= n <= Started(s) :: RunnersOk(s, n))
    && ControlOk(s)
  }

  ghost predicate Inv(s: State) {
    Shape(s) && ItersOk(s) && WorkersOk(s)
  }
}
