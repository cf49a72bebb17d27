/** Progress under the runtime: what every step of a leaving iteration achieves, and
    that every run can be finished. */
module PiperProgress {
  import opened Basics
  import opened PiperState
  import opened PiperSteps
  import opened PiperSafety
  import opened PiperThrottle
  import opened PiperRuns

  // ------------------------------------------------------------------ phases only grow

  /** The steps of an iteration behind its last wait. */
  predicate IsFinishing(a: Step) { a.Leave? || IsExit(a) || a.FinFreeLeft? || a.FinStage? || a.FinRest? }

  /** How far an iteration is on its way out, on either way. */
  function Rank(p: Phase): nat {
    match p
    case Working(_) => 0
    case Leaving => 1
    case ExitPopped | FinFreedLeft => 2
    case ExitStaged | FinStaged => 3
    case ExitFreedLeft => 4
    case Done => 5
  }

  /** Each step on the way out takes its own iteration further. */
  lemma FinishingGoesFurther(s: State, a: Step)
    requires Can(s, a) && IsFinishing(a)
    ensures Rank(PhaseOf(Do(s, a), IterAt(s, a.w))) > Rank(PhaseOf(s, IterAt(s, a.w)))
  {
  }

  /** What every step does to the list of phases: those of an iteration set its own,
      a start appends one, and no other step touches any. */
  lemma PhasesAfter(s: State, a: Step)
    requires Can(s, a)
    ensures IsMacro(a) || IsFinishing(a)
        ==> Started(Do(s, a)) == Started(s) && Do(s, a).phases == s.phases[IterAt(s, a.w) - 1 := PhaseOf(Do(s, a), IterAt(s, a.w))]
    ensures a.StartIteration? ==> Do(s, a).phases == s.phases + [Working(false)]
    ensures !IsMacro(a) && !IsFinishing(a) && !a.StartIteration? ==> Do(s, a).phases == s.phases
  {
  }

  /** No step ever takes another iteration anywhere, or one back. */
  lemma OthersStay(s: State, a: Step, m: int)
    requires Can(s, a) && m <= Started(s)
    ensures m <= Started(Do(s, a))
    ensures Rank(PhaseOf(Do(s, a), m)) >= Rank(PhaseOf(s, m))
    ensures !(IsMacro(a) || IsFinishing(a)) || IterAt(s, a.w) != m ==> PhaseOf(Do(s, a), m) == PhaseOf(s, m)
  {
    PhasesAfter(s, a);
    if (IsMacro(a) || IsFinishing(a)) && IterAt(s, a.w) == m {
      OwnGoesFurther(s, a);
    }
  }

  lemma OwnGoesFurther(s: State, a: Step)
    requires Can(s, a) && (IsMacro(a) || IsFinishing(a))
    ensures IterAt(s, a.w) <= Started(Do(s, a)) && Rank(PhaseOf(Do(s, a), IterAt(s, a.w))) >= Rank(PhaseAt(s, a.w))
  {
    if IsFinishing(a) { FinishingGoesFurther(s, a); }
  }

  lemma RanksGrowOnce(s: State, a: Step, s': State, n: int)
    requires Follows(s, a, s') && n <= Started(s)
    ensures n <= Started(s') && Rank(PhaseOf(s', n)) >= Rank(PhaseOf(s, n))
  {
    OthersStay(s, a, n);
  }

  lemma {:induction false} RanksGrow(run: seq<State>, steps: seq<Step>, i: nat, j: nat, n: int)
    requires IsRun(run, steps) && i <= j < |run| && n <= Started(run[i])
    ensures n <= Started(run[j]) && Rank(PhaseOf(run[j], n)) >= Rank(PhaseOf(run[i], n))
    decreases j
  {
    if i < j {
      RanksGrow(run, steps, i, j - 1, n);
      assert Follows(run[j - 1], steps[j - 1], run[j]);
      RanksGrowOnce(run[j - 1], steps[j - 1], run[j], n);
    }
  }

  predicate SetsFinishStage(a: Step) { a.ExitStage? || a.FinStage? }

  lemma FinishStageRank(s: State, a: Step)
    requires Can(s, a) && SetsFinishStage(a)
    ensures IterAt(s, a.w) <= Started(Do(s, a)) && Rank(PhaseOf(Do(s, a), IterAt(s, a.w))) >= 3
  {
  }

  /** From the step that sets the finish stage on, the iteration's counter stays there
      for as long as it has its block. */
  lemma FinishStageStays(run: seq<State>, steps: seq<Step>, i: nat, j: nat)
    requires IsRun(run, steps) && i < j < |run| && SetsFinishStage(steps[i])
    ensures Can(run[i], steps[i])
    ensures var n := IterAt(run[i], steps[i].w);
            InWindow(run[j], n) ==> Blk(run[j], n).stage == FINISH_STAGE
  {
    assert Follows(run[i], steps[i], run[i + 1]);
    var n := IterAt(run[i], steps[i].w);
    FinishStageRank(run[i], steps[i]);
    RanksGrow(run, steps, i + 1, j, n);
    RunHasInv(run, steps, j);
    assert InWindow(run[j], n) ==> IterOk(run[j], n);
  }

  // ------------------------------------------------------------------ continuations

  function Next(s: State, a: Step): Option<State> {
    if Can(s, a) then Some(Do(s, a)) else None
  }

  /** The state after the given steps, if every one of them was possible. */
  function After(s: State, steps: seq<Step>): Option<State> {
    Iterated(Next, s, steps)
  }

  lemma AfterBoth(s: State, before: seq<Step>, more: seq<Step>)
    requires After(s, before).Some?
    ensures After(s, before + more) == After(After(s, before).value, more)
  {
    IteratedBoth(Next, s, before, more);
  }

  lemma AfterOne(s: State, a: Step, more: seq<Step>)
    requires Can(s, a)
    ensures After(s, [a] + more) == After(Do(s, a), more)
  {
    IteratedOne(Next, s, a, more);
  }

  /** Nothing happened but that iteration n went on. */
  ghost predicate OnlyMoved(s: State, s': State, n: int) {
    && Started(s') == Started(s) && (s'.pc.Ended? <==> s.pc.Ended?)
    && forall m {:trigger PhaseOf(s', m)} | m <= Started(s) && m != n :: PhaseOf(s', m) == PhaseOf(s, m)
  }

  /** A bound on the steps that iteration n still needs when it does not have to wait. */
  function Remaining(s: State, n: int): nat
    requires n <= Started(s) && |s.ring| > 0
  {
    var b, p := Blk(s, n), PhaseOf(s, n);
    if !p.Working? then 5 - Rank(p)
    else (if b.stage < FINAL_STAGE then 10 else 7) + if !p.waiting then 0 else if b.cachedLeft > b.stage then 1 else 2
  }

  const MOST_REMAINING: nat := 12

  predicate IsOldest(s: State, n: int) {
    1 <= n <= Started(s) && !PhaseOf(s, n).Done? && PhaseOf(s, n - 1).Done?
  }

  ghost predicate ComesCloser(s: State, s': State, n: int)
    requires n <= Started(s) && |s.ring| > 0
  {
    OnlyMoved(s, s', n) && |s'.ring| > 0 && Remaining(s', n) < Remaining(s, n)
  }

  lemma WaitComesCloser(s: State, w: nat)
    requires Inv(s) && Works(s, w) && PhaseAt(s, w).Working? && Can(s, NextStep(s, w))
    requires PhaseAt(s, w) == Working(true) ==> !Stalls(s, IterAt(s, w))
    ensures ComesCloser(s, Do(s, NextStep(s, w)), IterAt(s, w))
  {
    RunnerFacts(s, w);
  }

  lemma FinishingOnlyMoves(s: State, a: Step)
    requires Shape(s) && Can(s, a) && IsFinishing(a)
    ensures OnlyMoved(s, Do(s, a), IterAt(s, a.w)) && |Do(s, a).ring| == |s.ring|
  {
  }

  lemma ExitComesCloser(s: State, w: nat)
    requires Shape(s) && (Works(s, w) || Exits(s, w)) && !PhaseAt(s, w).Working? && Can(s, NextStep(s, w))
    ensures ComesCloser(s, Do(s, NextStep(s, w)), IterAt(s, w))
  {
    FinishingGoesFurther(s, NextStep(s, w));
    FinishingOnlyMoves(s, NextStep(s, w));
  }

  /** The oldest unfinished iteration has a step that takes it closer to its end. */
  lemma OldestComesCloser(s: State, n: int) returns (a: Step)
    requires Inv(s) && IsOldest(s, n)
    ensures Can(s, a) && ComesCloser(s, Do(s, a), n)
  {
    var w := OldestGoesOn(s, n);
    a := NextStep(s, w);
    if PhaseAt(s, w).Working? {
      assert WorkerOk(s, w);
      WaitComesCloser(s, w);
    } else {
      ExitComesCloser(s, w);
    }
  }

  lemma {:induction false} OldestFinishes(s: State, n: int) returns (steps: seq<Step>)
    requires Inv(s) && IsOldest(s, n)
    ensures After(s, steps).Some? && Inv(After(s, steps).value) && OnlyMoved(s, After(s, steps).value, n)
    ensures PhaseOf(After(s, steps).value, n).Done?
    ensures |steps| <= Remaining(s, n)
    decreases Remaining(s, n)
  {
    var a := OldestComesCloser(s, n);
    var s' := Do(s, a);
    StepKeepsInv(s, a);
    if PhaseOf(s', n).Done? {
      AfterOne(s, a, []);
      steps := [a] + [];
    } else {
      var more := OldestFinishes(s', n);
      steps := [a] + more;
      AfterOne(s, a, more);
    }
  }

  /** All iterations that have started can finish, one after the other. */
  lemma AllFinish(s: State) returns (steps: seq<Step>)
    requires Inv(s)
    ensures After(s, steps).Some? && Inv(After(s, steps).value)
    ensures var s' := After(s, steps).value;
            Started(s') == Started(s) && (s'.pc.Ended? <==> s.pc.Ended?) && DoneUpTo(s', Started(s'))
    ensures |steps| <= MOST_REMAINING * Started(s)
  {
    steps := [];
    var n, s' := 0, s;
    while n < Started(s)
      invariant n <= Started(s) && After(s, steps) == Some(s') && Inv(s')
      invariant Started(s') == Started(s) && (s'.pc.Ended? <==> s.pc.Ended?) && DoneUpTo(s', n)
      invariant |steps| <= MOST_REMAINING * n
    {
      n := n + 1;
      if !PhaseOf(s', n).Done? {
        assert n > 1 ==> PhaseOf(s', n - 1).Done?;
        var more := OldestFinishes(s', n);
        AfterBoth(s, steps, more);
        steps, s' := steps + more, After(s', more).value;
      }
    }
  }

  /** How many steps control needs to get from here to the end of its loop. */
  function ControlRemaining(pc: ControlPc): nat {
    match pc
    case Spawned => 4
    case Slow => 3
    case Past => 2
    case Next => 1
    case Blocked => 3
    case Ended => 0
  }

  predicate ControlComesCloser(s: State, s': State) {
    s'.phases == s.phases && ControlRemaining(s'.pc) < ControlRemaining(s.pc)
  }

  lemma ControlGoesFurther(s: State) returns (a: Step)
    requires Inv(s) && !s.pc.Ended? && DoneUpTo(s, Started(s))
    ensures Can(s, a) && IsControl(a) && ControlComesCloser(s, Do(s, a))
  {
    a := ControlStepChanges(s);
    if a.SuspendAtThrottle? { SecondLookSucceeds(s, a.w); }
  }

  /** When all iterations are done, the block that control waits for is free. */
  lemma SecondLookSucceeds(s: State, w: nat)
    requires Inv(s) && Can(s, SuspendAtThrottle(w)) && DoneUpTo(s, Started(s))
    ensures Do(s, SuspendAtThrottle(w)).pc.Past?
  {
    NextIsOldest(s, w);
    OldestCounter(s, w);
    assert PhaseOf(s, Oldest(s)).Done? && PhaseOf(s, Oldest(s) + 1).Done?;
  }

  lemma DoneStays(s: State, s': State, n: nat)
    requires DoneUpTo(s, n) && s'.phases == s.phases
    ensures DoneUpTo(s', n)
  {
    forall m | 1 <= m <= n ensures PhaseOf(s', m).Done? {
      assert PhaseOf(s, m).Done?;
    }
  }

  lemma {:induction false} LoopFinishes(s: State) returns (steps: seq<Step>)
    requires Inv(s) && DoneUpTo(s, Started(s))
    ensures After(s, steps).Some? && HasFinished(After(s, steps).value) && |steps| <= ControlRemaining(s.pc)
    decreases ControlRemaining(s.pc)
  {
    if s.pc.Ended? {
      steps := [];
    } else {
      var a := ControlGoesFurther(s);
      StepKeepsInv(s, a);
      DoneStays(s, Do(s, a), Started(s));
      var more := LoopFinishes(Do(s, a));
      steps := [a] + more;
      AfterOne(s, a, more);
    }
  }

  /** From every state of every run some continuation ends the loop with every iteration
      done, within a number of steps that grows with the iterations started. */
  lemma EveryRunCanFinish(run: seq<State>, steps: seq<Step>, i: nat) returns (more: seq<Step>)
    requires IsRun(run, steps) && i < |run|
    ensures After(run[i], more).Some? && HasFinished(After(run[i], more).value)
    ensures |more| <= MOST_REMAINING * Started(run[i]) + ControlRemaining(Spawned)
  {
    RunHasInv(run, steps, i);
    var first := AllFinish(run[i]);
    var last := LoopFinishes(After(run[i], first).value);
    AfterBoth(run[i], first, last);
    more := first + last;
  }
}
