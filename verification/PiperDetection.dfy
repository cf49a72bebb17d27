/** The race detector under the runtime: whatever the workers do, the calls that the
    stage macros make are a run of the detector's pipeline. */
module PiperDetection {
  import opened Basics
  import opened LeftDependency
  import opened PiperState
  import opened PiperSteps
  import opened PiperSafety
  import opened PiperRuns
  import opened PiperProgram
  import opened PiperText
  import opened ProgramText
  import IterationRing
  import PipelineDag
  import PipelineRun
  import RaceDetection

  // ---------------------------------------------------------- an event for the text

  lemma FirstCallMovesText(prog: Program, c: Traced, w: nat)
    requires TracedInv(prog, c) && May(prog, c, FirstCall(w))
    ensures CallMoves(prog, c.pcs, PipelineRun.Begin, Move(prog, c, FirstCall(w)).pcs)
  {
    var k: nat := IterAt(c.s, w) - 1;
    forall j: nat | j < k ensures c.pcs[j].entered >= 1 && Detached(c.pcs[j]) {
      assert TextOk(prog, c, j + 1);
    }
    assert BeginsNext(prog, c.pcs, k);
  }

  lemma StageCallMovesText(prog: Program, c: Traced, w: nat)
    requires TracedInv(prog, c) && May(prog, c, StageCall(w))
    ensures CallMoves(prog, c.pcs, PipelineRun.Enter(IterAt(c.s, w) - 1), Move(prog, c, StageCall(w)).pcs)
  {
    assert IterAt(c.s, w) >= 2 ==> WaitOk(prog, c, IterAt(c.s, w));
  }

  lemma EventMovesText(prog: Program, c: Traced, e: Event, c': Traced)
    requires TracedInv(prog, c) && IsMove(prog, c, e, c')
    ensures TextMoves(prog, c.pcs, CallOf(prog, c, e), c'.pcs)
  {
    match e
    case FirstCall(w) => FirstCallMovesText(prog, c, w);
    case StageCall(w) => StageCallMovesText(prog, c, w);
    case Access(_, _, _) =>
    case Runtime(a) =>
      if a.Advance? || a.BeginWait? { assert TextOk(prog, c, IterAt(c.s, a.w)); }
  }

  // ------------------------------------------------------------------------ all runs

  lemma StartHasTracedInv(prog: Program, c: Traced)
    requires ProgramFits(prog) && IsStart(c.s) && c.pcs == []
    ensures TracedInv(prog, c)
  {
    StartHasInv(c.s);
  }

  lemma MoveKeepsTracedInv(prog: Program, c: Traced, e: Event, c': Traced)
    requires TracedInv(prog, c) && IsMove(prog, c, e, c')
    ensures TracedInv(prog, c')
  {
    EventKeepsTracedInv(prog, c, e);
  }

  lemma {:induction false} RunHasTracedInv(prog: Program, run: seq<Traced>, events: seq<Event>, i: nat)
    requires ProgramFits(prog) && IsTracedRun(prog, run, events) && i < |run|
    ensures TracedInv(prog, run[i])
  {
    if i == 0 {
      StartHasTracedInv(prog, run[0]);
    } else {
      RunHasTracedInv(prog, run, events, i - 1);
      assert IsMove(prog, run[i - 1], events[i - 1], run[i]);
      MoveKeepsTracedInv(prog, run[i - 1], events[i - 1], run[i]);
    }
  }

  function Texts(run: seq<Traced>): (ts: seq<seq<Pc>>)
    ensures |ts| == |run| && forall i | 0 <= i < |run| :: ts[i] == run[i].pcs
  {
    seq(|run|, i requires 0 <= i < |run| => run[i].pcs)
  }

  /** What each event is for the detector. */
  function CallsOf(prog: Program, run: seq<Traced>, events: seq<Event>): (ds: seq<Option<PipelineRun.Step>>)
    requires IsTracedRun(prog, run, events)
    ensures |ds| == |events| && forall i {:trigger ds[i]} | 0 <= i < |events| :: May(prog, run[i], events[i]) && ds[i] == CallOf(prog, run[i], events[i])
  {
    assert forall i | 0 <= i < |events| :: IsMove(prog, run[i], events[i], run[i + 1]);
    seq(|events|, i requires 0 <= i < |events| && May(prog, run[i], events[i]) => CallOf(prog, run[i], events[i]))
  }

  lemma RunIsTextRun(prog: Program, run: seq<Traced>, events: seq<Event>)
    requires ProgramFits(prog) && IsTracedRun(prog, run, events)
    ensures IsTextRun(prog, Texts(run), CallsOf(prog, run, events))
  {
    var ts, ds := Texts(run), CallsOf(prog, run, events);
    forall i: nat | i < |ds| ensures TextMoves(prog, ts[i], ds[i], ts[i + 1]) {
      RunHasTracedInv(prog, run, events, i);
      assert IsMove(prog, run[i], events[i], run[i + 1]);
      EventMovesText(prog, run[i], events[i], run[i + 1]);
    }
  }

  // --------------------------------------------------------------- what follows of it

  /** What the detector has been told in the first n events. */
  function ToldBy(prog: Program, run: seq<Traced>, events: seq<Event>, n: nat): seq<PipelineRun.Step>
    requires IsTracedRun(prog, run, events) && n <= |events|
  {
    Told(CallsOf(prog, run, events)[..n])
  }

  /** Every run of a program under the runtime is, in the calls it makes, a run of the
      detector's pipeline: iterations begin in order, and a wait is over for the
      detector when the runtime has let it pass. */
  lemma CallsAreARun(prog: Program, run: seq<Traced>, events: seq<Event>, n: nat)
    requires PipelineRun.ValidProgram(prog) && IsTracedRun(prog, run, events) && n <= |events|
    ensures RaceDetection.Execute(prog, ToldBy(prog, run, events, n)).Some?
    ensures KnowsAll(run[n].pcs, RaceDetection.Execute(prog, ToldBy(prog, run, events, n)).value)
  {
    ValidProgramFits(prog);
    RunIsTextRun(prog, run, events);
    TextIsFollowed(prog, Texts(run), CallsOf(prog, run, events), n);
  }

  /** The detector's state after the first n events. */
  ghost function Seen(prog: Program, run: seq<Traced>, events: seq<Event>, n: nat): (r: PipelineRun.Run)
    requires PipelineRun.ValidProgram(prog) && IsTracedRun(prog, run, events) && n <= |events|
    ensures KnowsAll(run[n].pcs, r)
  {
    CallsAreARun(prog, run, events, n);
    RaceDetection.Execute(prog, ToldBy(prog, run, events, n)).value
  }

  // ------------------------------------------------------- the accesses of the workers

  /** The stage whose code worker w runs. */
  function StageAt(c: Traced, w: nat): PipelineDag.Stage
    requires PiperProgram.Follows(c) && Works(c.s, w) && PcAt(c, w).entered >= 1
  {
    PipelineDag.Stage(IterAt(c.s, w) - 1, PcAt(c, w).entered - 1)
  }

  predicate IsAccess(c: Traced, e: Event) {
    e.Access? && PiperProgram.Follows(c) && Works(c.s, e.w) && PcAt(c, e.w).entered >= 1
  }

  /** Events m and n access the word, one of them writes, and the program leaves the
      stages that the two workers run unordered. */
  ghost predicate EventsRace(prog: Program, run: seq<Traced>, events: seq<Event>, m: nat, n: nat)
    requires m < |events| <= |run| && n < |events|
  {
    && IsAccess(run[m], events[m]) && IsAccess(run[n], events[n]) && (!events[m].isRead || !events[n].isRead)
    && !MustFollow(prog, StageAt(run[m], events[m].w), StageAt(run[n], events[n].w))
    && !MustFollow(prog, StageAt(run[n], events[n].w), StageAt(run[m], events[m].w))
  }

  /** Call k is the one that event m makes: the access as it is, in the worker's stage. */
  predicate IsCallOfAccess(run: seq<Traced>, events: seq<Event>, told: seq<PipelineRun.Step>, m: nat, k: nat)
    requires m < |events| <= |run|
  {
    && IsAccess(run[m], events[m]) && k < |told| && told[k].Use?
    && RaceDetection.TouchBy(told, k) == PipelineRun.Touch(StageAt(run[m], events[m].w), events[m].isRead, events[m].rip)
  }

  /** How many calls the first m events make. */
  function CallsBefore(prog: Program, run: seq<Traced>, events: seq<Event>, m: nat): nat
    requires IsTracedRun(prog, run, events) && m <= |events|
  {
    |ToldBy(prog, run, events, m)|
  }

  lemma ToldSoFar(prog: Program, run: seq<Traced>, events: seq<Event>, m: nat, n: nat)
    requires IsTracedRun(prog, run, events) && m < n <= |events|
    requires CallsOf(prog, run, events)[m].Some?
    ensures var told, k := ToldBy(prog, run, events, n), CallsBefore(prog, run, events, m);
            k < |told| && told[k] == CallsOf(prog, run, events)[m].value && told[..k] == ToldBy(prog, run, events, m)
  {
    var ds := CallsOf(prog, run, events);
    assert ds[..n][..m] == ds[..m] && ds[..n][m] == ds[m];
    ToldInOrder(ds[..n], m);
  }

  lemma CallsInOrder(prog: Program, run: seq<Traced>, events: seq<Event>, m: nat, n: nat)
    requires IsTracedRun(prog, run, events) && m < n <= |events|
    requires CallsOf(prog, run, events)[m].Some?
    ensures CallsBefore(prog, run, events, m) < CallsBefore(prog, run, events, n)
  {
    ToldSoFar(prog, run, events, m, n);
  }

  lemma CallsKeepOrder(prog: Program, run: seq<Traced>, events: seq<Event>, m: nat, n: nat)
    requires IsTracedRun(prog, run, events) && m < |events| && n < |events|
    requires CallsOf(prog, run, events)[n].Some? && CallsBefore(prog, run, events, m) < CallsBefore(prog, run, events, n)
    ensures m < n
  {
    if n < m {
      CallsInOrder(prog, run, events, n, m);
    }
  }

  /** The stage that the detector has for an iteration is the one of the text. */
  lemma StageIsKnown(prog: Program, run: seq<Traced>, events: seq<Event>, m: nat, i: nat)
    requires PipelineRun.ValidProgram(prog) && IsTracedRun(prog, run, events) && m <= |events|
    requires i < |run[m].pcs| && run[m].pcs[i].entered >= 1
    ensures RaceDetection.Entries(ToldBy(prog, run, events, m), i) == run[m].pcs[i].entered - 1
  {
    CallsAreARun(prog, run, events, m);
    RaceDetection.StepsAreCounted(prog, ToldBy(prog, run, events, m));
    assert Knows(run[m].pcs, RaceDetection.Execute(prog, ToldBy(prog, run, events, m)).value, i);
  }

  /** The call that an access makes. */
  lemma AccessIsCall(prog: Program, c: Traced, e: Event)
    requires May(prog, c, e)
    ensures e.Access? ==> IsAccess(c, e) && CallOf(prog, c, e) == Some(PipelineRun.Use(IterAt(c.s, e.w) - 1, e.isRead, e.rip))
    ensures CallOf(prog, c, e).Some? && CallOf(prog, c, e).value.Use? ==> e.Access?
  {
  }

  /** A call with the right iteration that stands behind the right entries. */
  lemma CallFits(run: seq<Traced>, events: seq<Event>, told: seq<PipelineRun.Step>, m: nat, k: nat)
    requires m < |events| <= |run| && IsAccess(run[m], events[m]) && k < |told|
    requires told[k] == PipelineRun.Use(IterAt(run[m].s, events[m].w) - 1, events[m].isRead, events[m].rip)
    requires RaceDetection.Entries(told[..k], IterAt(run[m].s, events[m].w) - 1) == PcAt(run[m], events[m].w).entered - 1
    ensures IsCallOfAccess(run, events, told, m, k)
  {
  }

  lemma CallIsCallOf(prog: Program, run: seq<Traced>, events: seq<Event>, m: nat)
    requires IsTracedRun(prog, run, events) && m < |events|
    ensures May(prog, run[m], events[m]) && CallsOf(prog, run, events)[m] == CallOf(prog, run[m], events[m])
  {
    var d := CallsOf(prog, run, events)[m];
  }

  lemma AccessMakesCall(prog: Program, run: seq<Traced>, events: seq<Event>, m: nat)
    requires IsTracedRun(prog, run, events) && m < |events| && events[m].Access?
    ensures IsAccess(run[m], events[m])
    ensures CallsOf(prog, run, events)[m]
         == Some(PipelineRun.Use(IterAt(run[m].s, events[m].w) - 1, events[m].isRead, events[m].rip))
  {
    CallIsCallOf(prog, run, events, m);
    AccessIsCall(prog, run[m], events[m]);
  }

  lemma WorkerIsInStage(prog: Program, run: seq<Traced>, events: seq<Event>, m: nat, w: nat)
    requires PipelineRun.ValidProgram(prog) && IsTracedRun(prog, run, events) && m <= |events|
    requires PiperProgram.Follows(run[m]) && Works(run[m].s, w) && PcAt(run[m], w).entered >= 1
    ensures RaceDetection.Entries(ToldBy(prog, run, events, m), IterAt(run[m].s, w) - 1) == PcAt(run[m], w).entered - 1
  {
    StageIsKnown(prog, run, events, m, IterAt(run[m].s, w) - 1);
  }

  lemma AccessIsTold(prog: Program, run: seq<Traced>, events: seq<Event>, m: nat, n: nat)
    requires PipelineRun.ValidProgram(prog) && IsTracedRun(prog, run, events) && m < n <= |events| && events[m].Access?
    ensures CallsOf(prog, run, events)[m].Some?
    ensures IsCallOfAccess(run, events, ToldBy(prog, run, events, n), m, CallsBefore(prog, run, events, m))
  {
    AccessMakesCall(prog, run, events, m);
    ToldSoFar(prog, run, events, m, n);
    WorkerIsInStage(prog, run, events, m, events[m].w);
    CallFits(run, events, ToldBy(prog, run, events, n), m, CallsBefore(prog, run, events, m));
  }

  lemma UseIsAccess(prog: Program, run: seq<Traced>, events: seq<Event>, n: nat, k: nat) returns (m: nat)
    requires PipelineRun.ValidProgram(prog) && IsTracedRun(prog, run, events) && n <= |events|
    requires k < |ToldBy(prog, run, events, n)| && ToldBy(prog, run, events, n)[k].Use?
    ensures m < n && CallsBefore(prog, run, events, m) == k && CallsOf(prog, run, events)[m].Some?
    ensures IsCallOfAccess(run, events, ToldBy(prog, run, events, n), m, k)
  {
    var ds := CallsOf(prog, run, events);
    m := ToldByCall(ds[..n], k);
    assert ds[..n][..m] == ds[..m] && ds[..n][m] == ds[m];
    AccessIsCall(prog, run[m], events[m]);
    AccessIsTold(prog, run, events, m, n);
  }

  lemma SameRace(prog: Program, run: seq<Traced>, events: seq<Event>, told: seq<PipelineRun.Step>, m: nat, n: nat, j: nat, k: nat)
    requires m < |events| <= |run| && n < |events|
    requires IsCallOfAccess(run, events, told, m, j) && IsCallOfAccess(run, events, told, n, k)
    ensures EventsRace(prog, run, events, m, n) <==> RaceDetection.StepsRace(prog, told, j, k)
  {
  }

  /** Over every run under the runtime no race goes unflagged. */
  lemma NoRaceIsMissedAtRuntime(prog: Program, run: seq<Traced>, events: seq<Event>, m: nat, n: nat, l: nat)
    requires PipelineRun.ValidProgram(prog) && IsTracedRun(prog, run, events) && m < n < l <= |events|
    requires EventsRace(prog, run, events, m, n)
    ensures Seen(prog, run, events, l).flagged
  {
    var told := ToldBy(prog, run, events, l);
    CallsAreARun(prog, run, events, l);
    AccessIsTold(prog, run, events, m, l);
    AccessIsTold(prog, run, events, n, l);
    CallsInOrder(prog, run, events, m, n);
    SameRace(prog, run, events, told, m, n, CallsBefore(prog, run, events, m), CallsBefore(prog, run, events, n));
    RaceDetection.NoRaceIsMissed(prog, told);
  }

  /** Two calls of accesses come from two events in the same order. */
  lemma UsesAreAccesses(prog: Program, run: seq<Traced>, events: seq<Event>, l: nat, j: nat, k: nat) returns (m: nat, n: nat)
    requires PipelineRun.ValidProgram(prog) && IsTracedRun(prog, run, events) && l <= |events|
    requires j < k < |ToldBy(prog, run, events, l)|
    requires ToldBy(prog, run, events, l)[j].Use? && ToldBy(prog, run, events, l)[k].Use?
    ensures m < n < l
    ensures IsCallOfAccess(run, events, ToldBy(prog, run, events, l), m, j)
    ensures IsCallOfAccess(run, events, ToldBy(prog, run, events, l), n, k)
  {
    m := UseIsAccess(prog, run, events, l, j);
    n := UseIsAccess(prog, run, events, l, k);
    CallsKeepOrder(prog, run, events, m, n);
  }

  lemma FlaggedCalls(prog: Program, told: seq<PipelineRun.Step>) returns (j: nat, k: nat)
    requires PipelineRun.ValidProgram(prog) && NoRepeatedWait(prog)
    requires RaceDetection.Execute(prog, told).Some? && RaceDetection.Execute(prog, told).value.flagged
    ensures j < k < |told| && RaceDetection.StepsRace(prog, told, j, k)
  {
    RaceDetection.ExactWithoutRepeatedWaits(prog, told);
    j, k :| j < k < |told| && RaceDetection.StepsRace(prog, told, j, k);
  }

  /** What is flagged without waits on repeated numbers are two accesses that race. */
  lemma FlaggedAtRuntime(prog: Program, run: seq<Traced>, events: seq<Event>, l: nat) returns (m: nat, n: nat)
    requires PipelineRun.ValidProgram(prog) && IsTracedRun(prog, run, events) && l <= |events|
    requires NoRepeatedWait(prog) && Seen(prog, run, events, l).flagged
    ensures m < n < l && EventsRace(prog, run, events, m, n)
  {
    var told := ToldBy(prog, run, events, l);
    CallsAreARun(prog, run, events, l);
    var j, k := FlaggedCalls(prog, told);
    m, n := UsesAreAccesses(prog, run, events, l, j, k);
    SameRace(prog, run, events, told, m, n, j, k);
  }

  /** Over every run under the runtime: after the first l events something is flagged if,
      and without waits on repeated numbers only if, two of them are accesses, one of
      them a write, by workers in stages that the program leaves unordered. */
  lemma DetectionIsExactAtRuntime(prog: Program, run: seq<Traced>, events: seq<Event>, l: nat)
    requires PipelineRun.ValidProgram(prog) && IsTracedRun(prog, run, events) && l <= |events|
    ensures (exists m: nat, n: nat | m < n < l :: EventsRace(prog, run, events, m, n)) ==> Seen(prog, run, events, l).flagged
    ensures NoRepeatedWait(prog) && Seen(prog, run, events, l).flagged
        ==> exists m: nat, n: nat | m < n < l :: EventsRace(prog, run, events, m, n)
  {
    if m: nat, n: nat :| m < n < l && EventsRace(prog, run, events, m, n) {
      NoRaceIsMissedAtRuntime(prog, run, events, m, n, l);
    }
    if NoRepeatedWait(prog) && Seen(prog, run, events, l).flagged {
      var m, n := FlaggedAtRuntime(prog, run, events, l);
    }
  }

  /** What the runtime knows about iterations that may still look to their left. */
  lemma NeighbourIsNear(s: State, w: nat)
    requires Inv(s) && Works(s, w) && PhaseAt(s, w).Working?
    ensures IterAt(s, w) <= Started(s) < IterAt(s, w) - 1 + |s.ring|
  {
    RunnerFacts(s, w);
  }

  lemma CallOfIteration(prog: Program, c: Traced, e: Event, c': Traced)
    requires ProgramFits(prog) && TracedInv(prog, c) && IsMove(prog, c, e, c') && (e.FirstCall? || e.StageCall?)
    ensures Works(c.s, e.w) && PhaseAt(c.s, e.w).Working? && |c'.pcs| == Started(c.s)
    ensures 1 <= IterAt(c.s, e.w) <= |c'.pcs| && c'.pcs[IterAt(c.s, e.w) - 1].entered >= 1
  {
  }

  lemma MoveKeepsSize(prog: Program, c: Traced, e: Event, c': Traced)
    requires IsMove(prog, c, e, c')
    ensures |c'.s.ring| == |c.s.ring|
  {
  }

  lemma {:induction false} RingKeepsSize(prog: Program, run: seq<Traced>, events: seq<Event>, i: nat)
    requires IsTracedRun(prog, run, events) && i < |run|
    ensures |run[i].s.ring| == |run[0].s.ring|
  {
    if i > 0 {
      RingKeepsSize(prog, run, events, i - 1);
      MoveKeepsSize(prog, run[i - 1], events[i - 1], run[i]);
    }
  }

  /** When a stage of iteration n is entered, the lists of n and of the iteration to
      its left are still in the detector's ring, which has one slot more than the
      runtime's ring has blocks. */
  lemma ListsAreThere(prog: Program, run: seq<Traced>, events: seq<Event>, i: nat)
    requires PipelineRun.ValidProgram(prog) && IsTracedRun(prog, run, events) && i < |events|
    requires events[i].FirstCall? || events[i].StageCall?
    ensures Works(run[i].s, events[i].w)
    ensures var n, count := IterAt(run[i].s, events[i].w), |Seen(prog, run, events, i + 1).iters|;
            && IterationRing.Kept(|run[0].s.ring|, count, n)
            && (n >= 2 ==> IterationRing.Kept(|run[0].s.ring|, count, n - 1))
  {
    ValidProgramFits(prog);
    RunHasTracedInv(prog, run, events, i);
    RingKeepsSize(prog, run, events, i);
    assert IsMove(prog, run[i], events[i], run[i + 1]);
    CallOfIteration(prog, run[i], events[i], run[i + 1]);
    NeighbourIsNear(run[i].s, events[i].w);
    assert Knows(run[i + 1].pcs, Seen(prog, run, events, i + 1), IterAt(run[i].s, events[i].w) - 1);
  }

  /** Every text has come to its end, and that of the failed loop test has no stage. */
  predicate TextsEnded(prog: Program, pcs: seq<Pc>, i: nat)
    requires i < |prog|
  {
    && |pcs| == |prog| + 1 && pcs[|prog|].entered == 0
    && pcs[|prog| - 1].entered >= 1 && pcs[i].entered == |prog[i]| >= 1
  }

  lemma FinishedTexts(prog: Program, c: Traced, i: nat)
    requires TracedInv(prog, c) && HasFinished(c.s) && i < |prog|
    ensures TextsEnded(prog, c.pcs, i)
  {
    assert TextOk(prog, c, i + 1) && TextOk(prog, c, |prog|) && TextOk(prog, c, |prog| + 1);
    assert RowFits(prog, i) && RowFits(prog, |prog| - 1);
  }

  lemma FinishedRun(prog: Program, run: seq<Traced>, events: seq<Event>, n: nat, i: nat)
    requires ProgramFits(prog) && IsTracedRun(prog, run, events) && n <= |events|
    requires HasFinished(run[n].s) && i < |prog|
    ensures TextsEnded(prog, run[n].pcs, i)
  {
    RunHasTracedInv(prog, run, events, n);
    FinishedTexts(prog, run[n], i);
  }

  /** When everything is finished the detector has seen every stage of the program. */
  lemma EverythingIsSeen(prog: Program, run: seq<Traced>, events: seq<Event>, n: nat, i: nat)
    requires PipelineRun.ValidProgram(prog) && IsTracedRun(prog, run, events) && n <= |events|
    requires HasFinished(run[n].s) && i < |prog|
    ensures var r := Seen(prog, run, events, n);
            |r.iters| == |PipelineRun.Rows(r)| == |prog| && |PipelineRun.Rows(r)[i].frames| == |prog[i]|
  {
    ValidProgramFits(prog);
    FinishedRun(prog, run, events, n, i);
    AllIsKnown(prog, run[n].pcs, Seen(prog, run, events, n), i);
  }

  /** A run of a program under the runtime never gets stuck before it is finished: some
      event changes something. */
  lemma RunGoesOn(prog: Program, run: seq<Traced>, events: seq<Event>, n: nat)
    requires ProgramFits(prog) && IsTracedRun(prog, run, events) && n <= |events| && !HasFinished(run[n].s)
    ensures exists e: Event :: May(prog, run[n], e) && Move(prog, run[n], e) != run[n]
  {
    RunHasTracedInv(prog, run, events, n);
    ProgramGoesOn(prog, run[n]);
  }
}
