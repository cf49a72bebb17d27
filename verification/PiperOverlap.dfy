/** How many iterations run at once: never more than the ring has blocks less one, and
    whenever there are enough workers as many as that. */
module PiperOverlap {
  import opened Basics
  import opened LeftDependency
  import opened PiperState
  import opened PiperSteps
  import opened PiperThrottle
  import opened PiperRuns
  import opened PiperProgram
  import opened PiperText
  import opened PiperDetection
  import opened PiperTermination
  import opened ProgramText

  /** The iteration has started and still runs its stages. */
  predicate UnderWay(s: State, n: int) {
    1 <= n <= Started(s) && PhaseOf(s, n).Working?
  }

  /** In every run the iterations under way fit into the ring, with one block to spare. */
  lemma AtMostTheWindow(run: seq<State>, steps: seq<Step>, i: nat, n: int)
    requires IsRun(run, steps) && i < |run| && UnderWay(run[i], n)
    ensures Started(run[i]) - n + 1 <= |run[i].ring| - 1
  {
    RunHasInv(run, steps, i);
    UnfinishedIsInWindow(run[i], n);
    LeftStaysInPlace(run, steps, i, n);
  }

  // ------------------------------------------------------------------ filling the window

  ghost predicate AllUnderWay(s: State, n: int) {
    forall m {:trigger UnderWay(s, m)} | 1 <= m <= n :: UnderWay(s, m)
  }

  lemma StillUnderWay(s: State, s': State, n: int)
    requires AllUnderWay(s, n) && s'.phases == s.phases
    ensures AllUnderWay(s', n)
  {
    forall m | 1 <= m <= n ensures UnderWay(s', m) {
      assert UnderWay(s, m);
    }
  }

  /** The first n workers run the first n iterations, and those behind the next one idle. */
  ghost predicate Crew(prog: Program, c: Traced, n: nat) {
    && TracedInv(prog, c) && 1 <= n == Started(c.s) <= |prog|
    && n < |c.s.workers| && n + 1 < |c.s.ring|
    && (forall v: nat | v < n :: c.s.workers[v].task == RunsIter(v + 1) && c.s.workers[v].parentResume.NoParent?)
    && (forall v: nat | n < v < |c.s.workers| :: c.s.workers[v] == IDLE)
    && AllUnderWay(c.s, n)
  }

  /** The newest iteration has control below it, and a thief is there. */
  ghost predicate MayBeStolen(prog: Program, c: Traced, n: nat, p: Pc) {
    && Crew(prog, c, n) && c.s.workers[n] == IDLE
    && c.s.pc.Spawned? && c.s.workers[n - 1].holdsControl && c.pcs[n - 1] == p
  }

  ghost predicate ControlIsAt(prog: Program, c: Traced, n: nat, pc: ControlPc) {
    Crew(prog, c, n) && c.s.workers[n] == RUNNING_CONTROL && c.s.pc == pc && Detached(c.pcs[n - 1])
  }

  lemma StageZeroBegins(prog: Program, c: Traced, n: nat)
    requires MayBeStolen(prog, c, n, AT_START) && PhaseOf(c.s, n) == Working(false)
    ensures May(prog, c, FirstCall(n - 1)) && MayBeStolen(prog, Move(prog, c, FirstCall(n - 1)), n, Pc(1, false))
    ensures PhaseOf(Move(prog, c, FirstCall(n - 1)).s, n) == Working(false)
  {
    EventKeepsTracedInv(prog, c, FirstCall(n - 1));
    StillUnderWay(c.s, Move(prog, c, FirstCall(n - 1)).s, n);
  }

  /** The next thing in the text of the iteration is a stage. */
  lemma NextStage(prog: Program, c: Traced, n: nat) returns (a: Step)
    requires MayBeStolen(prog, c, n, Pc(1, false)) && PhaseOf(c.s, n) == Working(false)
    ensures (a.Advance? || a.BeginWait?) && a.w == n - 1 && May(prog, c, Runtime(a))
  {
    assert TextOk(prog, c, n) && RowFits(prog, n - 1);
    var row := prog[n - 1];
    if |row| > 1 {
      a := if row[1].waits then BeginWait(n - 1, row[1].num + FIRST_STAGE) else Advance(n - 1, row[1].num + FIRST_STAGE);
    } else {
      a := BeginWait(n - 1, FINAL_STAGE);
    }
  }

  lemma StageIsAnnounced(prog: Program, c: Traced, n: nat, a: Step)
    requires MayBeStolen(prog, c, n, Pc(1, false))
    requires (a.Advance? || a.BeginWait?) && a.w == n - 1 && May(prog, c, Runtime(a))
    ensures MayBeStolen(prog, Move(prog, c, Runtime(a)), n, Pc(1, true))
  {
    EventKeepsTracedInv(prog, c, Runtime(a));
    forall m | 1 <= m <= n ensures UnderWay(Do(c.s, a), m) {
      assert UnderWay(c.s, m);
    }
  }

  lemma ControlIsStolen(prog: Program, c: Traced, n: nat)
    requires MayBeStolen(prog, c, n, Pc(1, true))
    ensures May(prog, c, Runtime(Steal(n, n - 1)))
    ensures ControlIsAt(prog, Move(prog, c, Runtime(Steal(n, n - 1))), n, Spawned)
  {
    EventKeepsTracedInv(prog, c, Runtime(Steal(n, n - 1)));
    StillUnderWay(c.s, Do(c.s, Steal(n, n - 1)), n);
  }

  /** The block of the next iteration has not been used before. */
  lemma NextBlockIsFree(s: State, w: nat)
    requires Inv(s) && Can(s, Throttle(w)) && Started(s) + 1 < |s.ring|
    ensures Do(s, Throttle(w)).pc.Past?
  {
    NextIsOldest(s, w);
    OldestCounter(s, w);
  }

  lemma ThrottlePasses(prog: Program, c: Traced, n: nat)
    requires ControlIsAt(prog, c, n, Spawned)
    ensures May(prog, c, Runtime(Throttle(n))) && ControlIsAt(prog, Move(prog, c, Runtime(Throttle(n))), n, Past)
  {
    NextBlockIsFree(c.s, n);
    EventKeepsTracedInv(prog, c, Runtime(Throttle(n)));
    StillUnderWay(c.s, Do(c.s, Throttle(n)), n);
  }

  lemma NextIsReserved(prog: Program, c: Traced, n: nat)
    requires ControlIsAt(prog, c, n, Past)
    ensures May(prog, c, Runtime(ReserveNext(n))) && ControlIsAt(prog, Move(prog, c, Runtime(ReserveNext(n))), n, Next)
  {
    EventKeepsTracedInv(prog, c, Runtime(ReserveNext(n)));
    StillUnderWay(c.s, Do(c.s, ReserveNext(n)), n);
  }

  /** Iteration n is the newest one, has just been started, and its worker can be stolen from. */
  ghost predicate Filled(prog: Program, c: Traced, n: nat) {
    && TracedInv(prog, c) && 1 <= n == Started(c.s) <= |c.s.workers| && c.s.pc.Spawned?
    && (forall v: nat | v < n :: c.s.workers[v].task == RunsIter(v + 1) && c.s.workers[v].parentResume.NoParent?)
    && (forall v: nat | n <= v < |c.s.workers| :: c.s.workers[v] == IDLE)
    && AllUnderWay(c.s, n) && PhaseOf(c.s, n) == Working(false)
    && c.s.workers[n - 1].holdsControl && c.pcs[n - 1] == AT_START
  }

  lemma NextIsStarted(prog: Program, c: Traced, n: nat)
    requires ControlIsAt(prog, c, n, Next)
    ensures May(prog, c, Runtime(StartIteration(n))) && Filled(prog, Move(prog, c, Runtime(StartIteration(n))), n + 1)
  {
    EventKeepsTracedInv(prog, c, Runtime(StartIteration(n)));
    var c' := Move(prog, c, Runtime(StartIteration(n)));
    forall m | 1 <= m <= n + 1 ensures UnderWay(c'.s, m) {
      assert m <= n ==> UnderWay(c.s, m);
    }
  }

  lemma FirstIsStarted(prog: Program, c: Traced)
    requires ProgramFits(prog) && IsStart(c.s) && c.pcs == []
    ensures May(prog, c, Runtime(StartIteration(0))) && Filled(prog, Move(prog, c, Runtime(StartIteration(0))), 1)
  {
    StartHasTracedInv(prog, c);
    EventKeepsTracedInv(prog, c, Runtime(StartIteration(0)));
  }

  lemma NewestHasWork(prog: Program, c: Traced, n: nat)
    requires Filled(prog, c, n) && n < |c.s.workers| && n + 1 < |c.s.ring| && n <= |prog|
    ensures MayBeStolen(prog, c, n, AT_START)
  {
  }

  /** One event, and what there is from there on. */
  lemma OneEvent(prog: Program, c: Traced, e: Event, more: seq<Event>)
    requires May(prog, c, e)
    ensures AfterEvents(prog, c, [e] + more) == AfterEvents(prog, Move(prog, c, e), more)
  {
    IteratedOne(NextOf(prog), c, e, more);
  }

  /** From the start of an iteration to that of the next one beside it. */
  lemma OneMoreStarts(prog: Program, c: Traced, n: nat) returns (events: seq<Event>)
    requires Filled(prog, c, n) && n < |c.s.workers| && n + 1 < |c.s.ring| && n <= |prog|
    ensures AfterEvents(prog, c, events).Some? && Filled(prog, AfterEvents(prog, c, events).value, n + 1)
    ensures SameSize(c.s, AfterEvents(prog, c, events).value.s)
  {
    NewestHasWork(prog, c, n);
    StageZeroBegins(prog, c, n);
    var c1 := Move(prog, c, FirstCall(n - 1));
    var a := NextStage(prog, c1, n);
    StageIsAnnounced(prog, c1, n, a);
    var c2 := Move(prog, c1, Runtime(a));
    var last := ControlStartsNext(prog, c2, n);
    OneEvent(prog, c1, Runtime(a), last);
    OneEvent(prog, c, FirstCall(n - 1), [Runtime(a)] + last);
    events := [FirstCall(n - 1)] + ([Runtime(a)] + last);
    StepKeepsSizes(c1.s, a);
  }

  predicate SameSize(s: State, s': State) { |s'.ring| == |s.ring| && |s'.workers| == |s.workers| }

  lemma StepKeepsSizes(s: State, a: Step)
    requires Can(s, a) && (IsMacro(a) || IsControl(a) || a.Steal?)
    ensures SameSize(s, Do(s, a))
  {
  }

  lemma ControlStartsNext(prog: Program, c: Traced, n: nat) returns (events: seq<Event>)
    requires MayBeStolen(prog, c, n, Pc(1, true))
    ensures AfterEvents(prog, c, events).Some? && Filled(prog, AfterEvents(prog, c, events).value, n + 1)
    ensures SameSize(c.s, AfterEvents(prog, c, events).value.s)
  {
    var e1, e2, e3, e4 := Runtime(Steal(n, n - 1)), Runtime(Throttle(n)), Runtime(ReserveNext(n)), Runtime(StartIteration(n));
    ControlIsStolen(prog, c, n);
    var c1 := Move(prog, c, e1);
    ThrottlePasses(prog, c1, n);
    var c2 := Move(prog, c1, e2);
    NextIsReserved(prog, c2, n);
    var c3 := Move(prog, c2, e3);
    NextIsStarted(prog, c3, n);
    OneEvent(prog, c3, e4, []);
    OneEvent(prog, c2, e3, [e4] + []);
    OneEvent(prog, c1, e2, [e3] + ([e4] + []));
    OneEvent(prog, c, e1, [e2] + ([e3] + ([e4] + [])));
    events := [e1] + ([e2] + ([e3] + ([e4] + [])));
    StepKeepsSizes(c.s, e1.step);
    StepKeepsSizes(c1.s, e2.step);
    StepKeepsSizes(c2.s, e3.step);
    StepKeepsSizes(c3.s, e4.step);
  }

  lemma FillOneMore(prog: Program, c: Traced, before: seq<Event>, n: nat) returns (events: seq<Event>)
    requires AfterEvents(prog, c, before).Some? && Filled(prog, AfterEvents(prog, c, before).value, n)
    requires SameSize(c.s, AfterEvents(prog, c, before).value.s)
    requires n < |c.s.workers| && n + 1 < |c.s.ring| && n <= |prog|
    ensures AfterEvents(prog, c, events).Some? && Filled(prog, AfterEvents(prog, c, events).value, n + 1)
    ensures SameSize(c.s, AfterEvents(prog, c, events).value.s)
  {
    var more := OneMoreStarts(prog, AfterEvents(prog, c, before).value, n);
    IteratedBoth(NextOf(prog), c, before, more);
    events := before + more;
  }

  /** The window can be filled: with a worker for each, as many iterations of a program
      as the ring has blocks less one can be under way at once. */
  lemma {:induction false} WindowCanBeFilled(prog: Program, c: Traced, n: nat) returns (events: seq<Event>)
    requires ProgramFits(prog) && IsStart(c.s) && c.pcs == []
    requires 1 <= n < |c.s.ring| && n <= |c.s.workers| && n <= |prog| + 1
    ensures AfterEvents(prog, c, events).Some? && Filled(prog, AfterEvents(prog, c, events).value, n)
    ensures SameSize(c.s, AfterEvents(prog, c, events).value.s)
  {
    if n == 1 {
      FirstIsStarted(prog, c);
      OneEvent(prog, c, Runtime(StartIteration(0)), []);
      StepKeepsSizes(c.s, StartIteration(0));
      events := [Runtime(StartIteration(0))] + [];
    } else {
      var before := WindowCanBeFilled(prog, c, n - 1);
      events := FillOneMore(prog, c, before, n - 1);
    }
  }
}
