/** A program under the runtime: the workers execute the text of the iterations, the
    steps of the runtime and the calls of the race detector that the stage macros
    make, in any interleaving. */
module PiperProgram {
  import opened Basics
  import opened LeftDependency
  import opened PiperState
  import opened PiperSteps
  import opened PiperRuns
  import opened ProgramText
  import PipelineRun

  /** One place in the text per iteration started. */
  datatype Traced = Traced(s: State, pcs: seq<Pc>)

  /** A step of the runtime; the calls for the first and for a later stage; an
      access to the word. */
  datatype Event =
    | Runtime(step: Step)
    | FirstCall(w: nat)
    | StageCall(w: nat)
    | Access(w: nat, isRead: bool, rip: int)

  predicate Follows(c: Traced) { |c.pcs| == Started(c.s) }

  function PcAt(c: Traced, w: nat): Pc
    requires Follows(c) && Works(c.s, w)
  {
    c.pcs[IterAt(c.s, w) - 1]
  }

  /** The next thing that iteration n does is this stage: one of the program, or the
      closing wait, also of the iteration in which the loop test fails. */
  predicate ComesNext(prog: Program, n: int, p: Pc, stage: int, waits: bool)
    requires n >= 1
  {
    && !p.announced && (n <= |prog| ==> p.entered >= 1)
    && stage == CounterAt(prog, n - 1, p.(announced := true)) + FIRST_STAGE && waits == WaitsAt(prog, n - 1, p.entered)
  }

  /** The step of the runtime is in the text. The loop runs until its test fails, in
      the iteration after the last one of the program. */
  predicate InText(prog: Program, c: Traced, a: Step)
    requires Follows(c)
  {
    match a
    case StartIteration(w) => Started(c.s) <= |prog|
    case StopLoop(w) => Started(c.s) == |prog| + 1
    case Advance(w, stage) => Works(c.s, w) && ComesNext(prog, IterAt(c.s, w), PcAt(c, w), stage, false)
    case BeginWait(w, stage) => Works(c.s, w) && ComesNext(prog, IterAt(c.s, w), PcAt(c, w), stage, true)
    case Steal(t, w) => Works(c.s, w) && Detached(PcAt(c, w))
    case _ => true
  }

  /** The worker runs code of the iteration, and does not wait. */
  predicate InBody(prog: Program, c: Traced, w: nat)
    requires Follows(c)
  {
    Works(c.s, w) && IterAt(c.s, w) <= |prog| && PhaseAt(c.s, w) == Working(false)
  }

  predicate May(prog: Program, c: Traced, e: Event) {
    && Follows(c)
    && match e
       case Runtime(a) => Can(c.s, a) && InText(prog, c, a)
       case FirstCall(w) => InBody(prog, c, w) && PcAt(c, w) == AT_START
       case StageCall(w) => InBody(prog, c, w) && PcAt(c, w).announced && 1 <= PcAt(c, w).entered < |prog[IterAt(c.s, w) - 1]|
       case Access(w, _, _) => InBody(prog, c, w) && !PcAt(c, w).announced && PcAt(c, w).entered >= 1
  }

  function SetPc(c: Traced, w: nat, p: Pc): seq<Pc>
    requires Follows(c) && Works(c.s, w)
  {
    c.pcs[IterAt(c.s, w) - 1 := p]
  }

  function Move(prog: Program, c: Traced, e: Event): Traced
    requires May(prog, c, e)
  {
    match e
    case Runtime(a) =>
      Traced(Do(c.s, a),
             match a
             case StartIteration(w) => c.pcs + [AT_START]
             case Advance(w, stage) => SetPc(c, w, PcAt(c, w).(announced := true))
             case BeginWait(w, stage) => SetPc(c, w, PcAt(c, w).(announced := true))
             case _ => c.pcs)
    case FirstCall(w) => c.(pcs := SetPc(c, w, Pc(1, false)))
    case StageCall(w) => var n: nat := PcAt(c, w).entered + 1; c.(pcs := SetPc(c, w, Pc(n, false)))
    case Access(w, isRead, rip) => c
  }

  /** What the event is for the detector, if anything. */
  function CallOf(prog: Program, c: Traced, e: Event): Option<PipelineRun.Step>
    requires May(prog, c, e)
  {
    match e
    case Runtime(a) =>
      if (a.Advance? || a.BeginWait?) && IterAt(c.s, a.w) <= |prog| then Some(PipelineRun.Announce(IterAt(c.s, a.w) - 1)) else None
    case FirstCall(w) => Some(PipelineRun.Begin)
    case StageCall(w) => Some(PipelineRun.Enter(IterAt(c.s, w) - 1))
    case Access(w, isRead, rip) => Some(PipelineRun.Use(IterAt(c.s, w) - 1, isRead, rip))
  }

  predicate IsMove(prog: Program, c: Traced, e: Event, c': Traced) {
    May(prog, c, e) && c' == Move(prog, c, e)
  }

  predicate IsTracedRun(prog: Program, run: seq<Traced>, events: seq<Event>) {
    && |run| == |events| + 1 && IsStart(run[0].s) && run[0].pcs == []
    && forall i: nat {:trigger events[i]} | i < |events| :: IsMove(prog, run[i], events[i], run[i + 1])
  }
}
