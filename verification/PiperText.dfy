/** What every event keeps of the text: where the iterations are in it is where the
    runtime has them, waits that have ended were satisfied, and control follows. */
module PiperText {
  import opened LeftDependency
  import opened PiperState
  import opened PiperSteps
  import opened PiperFrames
  import opened PiperSafety
  import opened PiperRuns
  import opened PiperProgram
  import opened ProgramText

  // --------------------------------------------------- what the runtime's steps do

  /** Steps that concern neither the text nor a stage counter of a working iteration. */
  predicate IsQuiet(a: Step) {
    !a.StartIteration? && !a.Advance? && !a.BeginWait? && !a.EndWait? && !a.Leave?
  }

  lemma QuietPhases(s: State, a: Step, n: int)
    requires Inv(s) && Can(s, a) && IsQuiet(a) && 1 <= n <= Started(s)
    ensures Started(Do(s, a)) == Started(s)
    ensures PhaseOf(Do(s, a), n) == PhaseOf(s, n) || (!PhaseOf(Do(s, a), n).Working? && !PhaseOf(s, n).Working?)
  {
  }

  /** No stage counter differs. */
  predicate SameStages(s: State, s': State) {
    |s'.ring| == |s.ring| && forall i :: 0 <= i < |s.ring| ==> s'.ring[i].stage == s.ring[i].stage
  }

  lemma SuspendKeepsStages(s: State, w: nat)
    requires |s.ring| > 0 && Can(s, SuspendAtWait(w))
    ensures SameStages(s, DoSuspend(s, w))
  {
  }

  lemma FinRestKeepsStages(s: State, w: nat)
    requires |s.ring| > 0 && Can(s, FinRest(w))
    ensures SameStages(s, DoFinRest(s, w))
  {
  }

  lemma ImplicitStealKeepsStages(s: State, t: nat, w: nat)
    requires |s.ring| > 0 && Can(s, ImplicitSteal(t, w))
    ensures SameStages(s, DoImplicitSteal(s, t, w))
  {
  }

  /** A step of the runtime on its own sets no stage counter but those of
      iterations past their stages. */
  lemma QuietStages(s: State, a: Step)
    requires |s.ring| > 0 && Can(s, a) && IsQuiet(a) && !a.ExitStage? && !a.FinStage?
    ensures SameStages(s, Do(s, a))
  {
    match a
    case SuspendAtWait(w) => SuspendKeepsStages(s, w);
    case FinRest(w) => FinRestKeepsStages(s, w);
    case ImplicitSteal(t, w) => ImplicitStealKeepsStages(s, t, w);
    case _ =>
  }

  // -------------------------------------------------------- the text, step by step

  /** Where the text of iteration n is, and where the runtime has it. */
  predicate TextOk(prog: Program, c: Traced, n: int)
    requires PiperProgram.Follows(c) && |c.s.ring| > 0 && 1 <= n <= Started(c.s)
  {
    var p, ph := c.pcs[n - 1], PhaseOf(c.s, n);
    && (if n > |prog| then p.entered == 0 else p.entered <= |prog[n - 1]|)
    && (p.entered == 0 && n <= |prog| ==> !p.announced)
    && (ph.Working? ==> Blk(c.s, n).stage == CounterAt(prog, n - 1, p) + FIRST_STAGE)
    && (!ph.Working? ==> p.announced && (n <= |prog| ==> p.entered == |prog[n - 1]|))
    && (ph == Working(true) ==> p.announced)
    && (n < Started(c.s) ==> Detached(p))
  }

  /** A wait that has ended was satisfied, and stays so. */
  predicate WaitOk(prog: Program, c: Traced, n: int)
    requires PiperProgram.Follows(c) && 2 <= n <= Started(c.s) && n <= |prog|
  {
    var p, row := c.pcs[n - 1], prog[n - 1];
    PhaseOf(c.s, n) == Working(false) && p.announced && p.entered < |row| && row[p.entered].waits ==>
      CounterAt(prog, n - 2, c.pcs[n - 2]) > CounterAt(prog, n - 1, p)
  }

  predicate SomebodyHolds(s: State) { exists w: nat :: w < |s.workers| && s.workers[w].holdsControl }

  /** Before the newest iteration has detached, control waits below it. */
  predicate LoopOk(c: Traced)
    requires PiperProgram.Follows(c)
  {
    Started(c.s) >= 1 && !Detached(c.pcs[Started(c.s) - 1]) ==> c.s.pc.Spawned? && SomebodyHolds(c.s)
  }

  ghost predicate TextsOk(prog: Program, c: Traced)
    requires PiperProgram.Follows(c) && |c.s.ring| > 0
  {
    && (forall n {:trigger TextOk(prog, c, n)} | 1 <= n <= Started(c.s) :: TextOk(prog, c, n))
    && (forall n {:trigger WaitOk(prog, c, n)} | 2 <= n <= Started(c.s) && n <= |prog| :: WaitOk(prog, c, n))
  }

  ghost predicate TracedInv(prog: Program, c: Traced) {
    && ProgramFits(prog) && Inv(c.s) && PiperProgram.Follows(c) && Started(c.s) <= |prog| + 1
    && TextsOk(prog, c) && LoopOk(c) && (c.s.pc.Ended? ==> Started(c.s) == |prog| + 1)
  }

  // ------------------------------------------------------------ control stays below

  /** Who holds the control frame keeps it, and control keeps waiting, unless it is
      stolen, promoted or popped. */
  lemma HeldStays(s: State, a: Step, v: nat)
    requires Inv(s) && Can(s, a) && s.pc.Spawned? && v < |s.workers| && s.workers[v].holdsControl
    requires !(a.Steal? && a.w == v) && !(a.PromoteSelf? && a.w == v) && !(a.PopIteration? && a.w == v)
    ensures Do(s, a).pc.Spawned? && v < |Do(s, a).workers| && Do(s, a).workers[v].holdsControl
  {
    assert WorkerOk(s, v);
    HeldExcludesControl(s, a, v);
  }

  /** While somebody holds the control frame nobody executes it, and the worker that
      acts is not the holder where the step needs one without it. */
  lemma HeldExcludesControl(s: State, a: Step, v: nat)
    requires Inv(s) && Can(s, a) && v < |s.workers| && s.workers[v].holdsControl
    ensures !a.StartIteration? && !a.StopLoop? && !a.Throttle? && !a.SuspendAtThrottle? && !a.ReserveNext?
    ensures a.FinRest? || a.FinStage? || a.SuspendAtWait? ==> a.w != v
  {
    assert WorkerOk(s, v);
    match a
    case StartIteration(w) => OneControl(s, v, w);
    case StopLoop(w) => OneControl(s, v, w);
    case Throttle(w) => OneControl(s, v, w);
    case SuspendAtThrottle(w) => OneControl(s, v, w);
    case ReserveNext(w) => OneControl(s, v, w);
    case FinRest(w) => RunnerFacts(s, w);
    case FinStage(w) => RunnerFacts(s, w);
    case _ =>
  }

  // --------------------------------------------------------- one step, text and all

  lemma WorkingIsInWindow(s: State, n: int)
    requires Inv(s) && 1 <= n <= Started(s) && PhaseOf(s, n).Working?
    ensures InWindow(s, n)
  {
    UnfinishedIsInWindow(s, n);
  }

  /** The stage counter of a working iteration m changes only by its own macros. */
  lemma StageStays(s: State, a: Step, m: int)
    requires Inv(s) && Can(s, a) && 1 <= m <= Started(s) && PhaseOf(s, m).Working?
    requires (a.Advance? || a.BeginWait? || a.Leave?) ==> IterAt(s, a.w) != m
    ensures Blk(Do(s, a), m).stage == Blk(s, m).stage
  {
    WorkingIsInWindow(s, m);
    if a.StartIteration? {
      var n := s.reserved;
      var b := Blk(s, n).(status := StandardExec, iterNum := n, stage := FIRST_STAGE, cachedLeft := FIRST_STAGE);
      SetBlkFrame(s, n, b, m);
    } else if a.Advance? || a.BeginWait? {
      RunnerFacts(s, a.w);
      SetBlkFrame(s, IterAt(s, a.w), Blk(s, IterAt(s, a.w)).(stage := a.stage), m);
    } else if a.Leave? {
      RunnerFacts(s, a.w);
      SetBlkFrame(s, IterAt(s, a.w), Blk(s, IterAt(s, a.w)).(stage := POST_CLEANUP_STAGE), m);
    } else if a.FinStage? {
      RunnerFacts(s, a.w);
      SetBlkFrame(s, IterAt(s, a.w), Blk(s, IterAt(s, a.w)).(stage := FINISH_STAGE), m);
    } else if a.ExitStage? {
      ExiterFacts(s, a.w);
      SetBlkFrame(s, IterAt(s, a.w), Blk(s, IterAt(s, a.w)).(stage := FINISH_STAGE), m);
    } else if a.EndWait? {
    } else {
      QuietStages(s, a);
    }
  }

  /** The one iteration whose place in the text an event changes. */
  predicate Concerns(prog: Program, c: Traced, e: Event, n: int)
    requires May(prog, c, e)
  {
    match e
    case Runtime(a) => (a.Advance? || a.BeginWait?) && IterAt(c.s, a.w) == n
    case FirstCall(w) => IterAt(c.s, w) == n
    case StageCall(w) => IterAt(c.s, w) == n
    case Access(_, _, _) => false
  }

  lemma PcGoesOn(prog: Program, c: Traced, e: Event, n: int)
    requires TracedInv(prog, c) && May(prog, c, e) && 1 <= n <= Started(c.s)
    ensures PiperProgram.Follows(Move(prog, c, e)) && n <= |Move(prog, c, e).pcs|
    ensures GoesOn(prog, n - 1, c.pcs[n - 1], Move(prog, c, e).pcs[n - 1])
    ensures !Concerns(prog, c, e, n) ==> Move(prog, c, e).pcs[n - 1] == c.pcs[n - 1]
  {
    assert TextOk(prog, c, n);
    if e.Runtime? && IsQuiet(e.step) { QuietPhases(c.s, e.step, n); }
  }

  /** What a step of the runtime does to an iteration whose macros do not act. */
  lemma OtherIteration(s: State, a: Step, n: int)
    requires Inv(s) && Can(s, a) && 1 <= n <= Started(s)
    requires (a.Advance? || a.BeginWait?) ==> IterAt(s, a.w) != n
    ensures n <= Started(Do(s, a)) <= Started(s) + 1 && (Started(Do(s, a)) > Started(s) ==> a.StartIteration?)
    ensures |Do(s, a).ring| == |s.ring|
    ensures PhaseOf(Do(s, a), n).Working? ==> PhaseOf(s, n).Working? && Blk(Do(s, a), n).stage == Blk(s, n).stage
    ensures PhaseOf(Do(s, a), n) == Working(true) ==> PhaseOf(s, n) == Working(true)
    ensures !PhaseOf(Do(s, a), n).Working? && PhaseOf(s, n).Working? ==>
              a.Leave? && IterAt(s, a.w) == n && Blk(s, n).stage == FINAL_STAGE
  {
    if IsQuiet(a) { QuietPhases(s, a, n); }
    if PhaseOf(s, n).Working? && !(a.Leave? && IterAt(s, a.w) == n) {
      StageStays(s, a, n);
    }
  }

  /** An iteration that the event does not concern stays where it is in its text. */
  lemma OtherTextStays(prog: Program, c: Traced, e: Event, n: int)
    requires TracedInv(prog, c) && May(prog, c, e) && 1 <= n <= Started(c.s) && !Concerns(prog, c, e, n)
    ensures PiperProgram.Follows(Move(prog, c, e)) && n <= Started(Move(prog, c, e).s) && |Move(prog, c, e).s.ring| > 0
    ensures TextOk(prog, Move(prog, c, e), n)
  {
    assert TextOk(prog, c, n);
    PcGoesOn(prog, c, e, n);
    assert n <= |prog| ==> RowFits(prog, n - 1);
    if e.Runtime? {
      OtherIteration(c.s, e.step, n);
      if e.step.StartIteration? { NewestHasDetached(c, e.step.w); }
    }
  }

  /** Where control goes on, the newest iteration has detached. */
  lemma NewestHasDetached(c: Traced, w: nat)
    requires PiperProgram.Follows(c) && LoopOk(c) && Started(c.s) >= 1 && Can(c.s, StartIteration(w))
    ensures Detached(c.pcs[Started(c.s) - 1])
  {
  }

  /** The iteration that it concerns is where the text says. */
  lemma OwnTextGoesOn(prog: Program, c: Traced, e: Event, n: int)
    requires TracedInv(prog, c) && May(prog, c, e) && 1 <= n <= Started(c.s) && Concerns(prog, c, e, n)
    ensures PiperProgram.Follows(Move(prog, c, e)) && n <= Started(Move(prog, c, e).s) && |Move(prog, c, e).s.ring| > 0
    ensures TextOk(prog, Move(prog, c, e), n)
  {
    assert TextOk(prog, c, n);
    PcGoesOn(prog, c, e, n);
    assert n <= |prog| ==> RowFits(prog, n - 1);
  }

  lemma NewTextIsOk(prog: Program, c: Traced, w: nat)
    requires TracedInv(prog, c) && May(prog, c, Runtime(StartIteration(w)))
    ensures var c' := Move(prog, c, Runtime(StartIteration(w)));
            PiperProgram.Follows(c') && |c'.s.ring| > 0 && Started(c'.s) == Started(c.s) + 1 && TextOk(prog, c', Started(c'.s))
  {
  }

  /** The runtime ends a wait only when the text of the left iteration is past it. */
  lemma EndedWaitIsOver(prog: Program, c: Traced, w: nat)
    requires TracedInv(prog, c) && Can(c.s, EndWait(w)) && 2 <= IterAt(c.s, w) <= |prog|
    requires c.pcs[IterAt(c.s, w) - 1].entered < |prog[IterAt(c.s, w) - 1]|
    ensures var n := IterAt(c.s, w); CounterAt(prog, n - 2, c.pcs[n - 2]) > CounterAt(prog, n - 1, c.pcs[n - 1])
  {
    var n := IterAt(c.s, w);
    assert TextOk(prog, c, n) && TextOk(prog, c, n - 1);
    WaitIsSafe(c.s, w);
    assert RowFits(prog, n - 1);
  }

  lemma WaitingEnds(s: State, a: Step, n: int)
    requires Inv(s) && Can(s, a) && 1 <= n <= Started(s)
    ensures n <= Started(Do(s, a))
    ensures PhaseOf(Do(s, a), n) == Working(false) ==> PhaseOf(s, n) == Working(false) || (a.EndWait? && IterAt(s, a.w) == n)
    ensures a.BeginWait? && IterAt(s, a.w) == n ==> PhaseOf(Do(s, a), n) == Working(true)
  {
    if IsQuiet(a) { QuietPhases(s, a, n); }
  }

  lemma WaitStays(prog: Program, c: Traced, e: Event, n: int)
    requires TracedInv(prog, c) && May(prog, c, e) && 2 <= n <= Started(c.s) && n <= |prog|
    ensures PiperProgram.Follows(Move(prog, c, e)) && n <= Started(Move(prog, c, e).s)
    ensures WaitOk(prog, Move(prog, c, e), n)
  {
    var c' := Move(prog, c, e);
    assert WaitOk(prog, c, n);
    PcGoesOn(prog, c, e, n);
    PcGoesOn(prog, c, e, n - 1);
    CounterGrows(prog, n - 2, c.pcs[n - 2], c'.pcs[n - 2]);
    if e.Runtime? {
      WaitingEnds(c.s, e.step, n);
      if e.step.EndWait? && IterAt(c.s, e.step.w) == n && c.pcs[n - 1].entered < |prog[n - 1]| {
        EndedWaitIsOver(prog, c, e.step.w);
      }
    }
  }

  /** While the newest iteration has not detached, control stays below it. */
  lemma ControlStaysBelow(prog: Program, c: Traced, a: Step)
    requires TracedInv(prog, c) && May(prog, c, Runtime(a)) && Started(c.s) >= 1 && !Detached(c.pcs[Started(c.s) - 1])
    ensures Do(c.s, a).pc.Spawned? && SomebodyHolds(Do(c.s, a))
  {
    var v: nat :| v < |c.s.workers| && c.s.workers[v].holdsControl;
    assert WorkerOk(c.s, v) && TextOk(prog, c, Started(c.s));
    HeldStays(c.s, a, v);
  }

  lemma LoopStays(prog: Program, c: Traced, e: Event)
    requires TracedInv(prog, c) && May(prog, c, e)
    ensures PiperProgram.Follows(Move(prog, c, e)) && LoopOk(Move(prog, c, e))
  {
    var c', n := Move(prog, c, e), Started(c.s);
    if e.Runtime? && e.step.StartIteration? {
      assert c'.s.workers[e.step.w].holdsControl;
    } else if n >= 1 {
      PcGoesOn(prog, c, e, n);
      CounterGrows(prog, n - 1, c.pcs[n - 1], c'.pcs[n - 1]);
      if e.Runtime? {
        StartedStays(c.s, e.step);
        if !Detached(c.pcs[n - 1]) { ControlStaysBelow(prog, c, e.step); }
      }
    }
  }

  lemma StartedStays(s: State, a: Step)
    requires Inv(s) && Can(s, a) && !a.StartIteration?
    ensures Started(Do(s, a)) == Started(s)
  {
  }

  /** Only the failed loop test ends the loop. */
  lemma LoopEnds(s: State, a: Step)
    requires Inv(s) && Can(s, a) && Do(s, a).pc.Ended?
    ensures a.StopLoop? || (s.pc.Ended? && !a.StartIteration?)
    ensures Started(Do(s, a)) == Started(s)
  {
  }

  lemma EventKeepsTracedInv(prog: Program, c: Traced, e: Event)
    requires TracedInv(prog, c) && May(prog, c, e)
    ensures TracedInv(prog, Move(prog, c, e))
  {
    var c' := Move(prog, c, e);
    if e.Runtime? {
      StepKeepsInv(c.s, e.step);
      if c'.s.pc.Ended? { LoopEnds(c.s, e.step); }
    }
    LoopStays(prog, c, e);
    forall n | 1 <= n <= Started(c'.s) ensures TextOk(prog, c', n) {
      if n > Started(c.s) {
        NewTextIsOk(prog, c, e.step.w);
      } else if Concerns(prog, c, e, n) {
        OwnTextGoesOn(prog, c, e, n);
      } else {
        OtherTextStays(prog, c, e, n);
      }
    }
    forall n | 2 <= n <= Started(c'.s) && n <= |prog| ensures WaitOk(prog, c', n) {
      if n <= Started(c.s) { WaitStays(prog, c, e, n); }
    }
  }

  // --------------------------------------------------------------------- never stuck

  /** A worker that runs the code of an iteration can go on in the text. */
  lemma BodyGoesOn(prog: Program, c: Traced, w: nat) returns (e: Event)
    requires TracedInv(prog, c) && Works(c.s, w) && PhaseAt(c.s, w) == Working(false)
    ensures May(prog, c, e) && Move(prog, c, e) != c
  {
    var n, p := IterAt(c.s, w), PcAt(c, w);
    assert TextOk(prog, c, n) && (n <= |prog| ==> RowFits(prog, n - 1));
    if n <= |prog| && p.entered == 0 {
      e := FirstCall(w);
    } else if p.announced {
      e := if n <= |prog| && p.entered < |prog[n - 1]| then StageCall(w) else Runtime(Leave(w));
    } else if n <= |prog| && p.entered < |prog[n - 1]| {
      var stage := prog[n - 1][p.entered].num + FIRST_STAGE;
      e := Runtime(if prog[n - 1][p.entered].waits then BeginWait(w, stage) else Advance(w, stage));
    } else {
      e := Runtime(BeginWait(w, FINAL_STAGE));
    }
  }

  lemma OldestGoesOnInText(prog: Program, c: Traced, n: int) returns (e: Event)
    requires TracedInv(prog, c) && 1 <= n <= Started(c.s) && !PhaseOf(c.s, n).Done? && PhaseOf(c.s, n - 1).Done?
    ensures May(prog, c, e) && Move(prog, c, e) != c
  {
    var w := OldestGoesOn(c.s, n);
    if Works(c.s, w) && PhaseAt(c.s, w) == Working(false) {
      e := BodyGoesOn(prog, c, w);
    } else {
      NextStepChanges(c.s, w);
      e := Runtime(NextStep(c.s, w));
    }
  }

  lemma LoopGoesOn(prog: Program, c: Traced) returns (e: Event)
    requires TracedInv(prog, c) && !c.s.pc.Ended? && forall n | 1 <= n <= Started(c.s) :: PhaseOf(c.s, n).Done?
    ensures May(prog, c, e) && Move(prog, c, e) != c
  {
    var w := ControlGoesOn(c.s);
    match c.s.pc
    case Spawned => e := Runtime(Throttle(w));
    case Slow => e := Runtime(SuspendAtThrottle(w));
    case Past => e := Runtime(ReserveNext(w));
    case Next => e := Runtime(if Started(c.s) <= |prog| then StartIteration(w) else StopLoop(w));
    case _ =>
  }

  /** A program under the runtime never gets stuck before it is finished: some event
      changes something. */
  lemma ProgramGoesOn(prog: Program, c: Traced)
    requires TracedInv(prog, c) && !HasFinished(c.s)
    ensures exists e: Event :: May(prog, c, e) && Move(prog, c, e) != c
  {
    var n := 0;
    while n < Started(c.s) && PhaseOf(c.s, n + 1).Done?
      invariant n <= Started(c.s) && DoneUpTo(c.s, n)
    {
      n := n + 1;
    }
    if n < Started(c.s) {
      var e := OldestGoesOnInText(prog, c, n + 1);
    } else {
      var e := LoopGoesOn(prog, c);
    }
  }
}
