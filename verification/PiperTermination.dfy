/** Termination under the runtime: only so many events of a run change anything, and as
    long as the program is not finished some event does. */
module PiperTermination {
  import opened Basics
  import opened LeftDependency
  import opened PiperState
  import opened PiperSteps
  import opened PiperSafety
  import opened PiperFinish
  import opened PiperRuns
  import opened PiperProgress
  import opened PiperCost
  import opened PiperProgram
  import opened PiperText
  import opened PiperDetection
  import opened ProgramText

  // ------------------------------------------------------------------- adding up

  function Sum(xs: seq<nat>): nat {
    if |xs| == 0 then 0 else Sum(xs[..|xs| - 1]) + xs[|xs| - 1]
  }

  /** Entry k changes by at most d, the next one by at most e, and no other one grows. */
  predicate ChangesAt(xs: seq<nat>, ys: seq<nat>, k: int, d: int, e: nat) {
    && |xs| == |ys|
    && forall i: nat {:trigger ys[i]} | i < |xs| :: ys[i] <= xs[i] + (if i == k then d else if i == k + 1 then e else 0)
  }

  lemma {:induction false} SumChanges(xs: seq<nat>, ys: seq<nat>, k: int, d: int, e: nat)
    requires ChangesAt(xs, ys, k, d, e)
    ensures Sum(ys) <= Sum(xs) + (if 0 <= k < |xs| then d else 0) + if 0 <= k + 1 < |xs| then e else 0
  {
    if |xs| > 0 {
      var l := |xs| - 1;
      assert forall i: nat | i < l :: ys[..l][i] == ys[i];
      SumChanges(xs[..l], ys[..l], k, d, e);
      assert ys[l] <= xs[l] + (if l == k then d else if l == k + 1 then e else 0);
    }
  }

  // ------------------------------------------------------------------- the budget

  function StagesOf(prog: Program, n: int): nat {
    if 1 <= n <= |prog| then |prog[n - 1]| else 0
  }

  /** The stages still to be entered and announced. */
  function TextLeft(prog: Program, pcs: seq<Pc>, n: int): nat
    requires 1 <= n <= |pcs|
  {
    var p := pcs[n - 1];
    (if p.entered <= StagesOf(prog, n) then 2 * (StagesOf(prog, n) - p.entered) else 0) + if p.announced then 0 else 1
  }

  /** What an iteration costs that has not started. */
  function Price(prog: Program, n: int): nat { 12 * StagesOf(prog, n) + 28 }

  function Cell(prog: Program, c: Traced, n: int): nat
    requires PiperProgram.Follows(c) && |c.s.ring| > 0 && n >= 1
  {
    if n <= Started(c.s) then Cost(c.s, n) + 6 * TextLeft(prog, c.pcs, n) else Price(prog, n)
  }

  /** One for each iteration of the program, and for the one in which the loop test fails. */
  function Cells(prog: Program, c: Traced): (cs: seq<nat>)
    requires PiperProgram.Follows(c) && |c.s.ring| > 0
    ensures |cs| == |prog| + 1 && forall i: nat {:trigger cs[i]} | i < |cs| :: cs[i] == Cell(prog, c, i + 1)
  {
    seq(|prog| + 1, i requires i >= 0 => Cell(prog, c, i + 1))
  }

  function Budget(prog: Program, c: Traced): nat
    requires PiperProgram.Follows(c) && |c.s.ring| > 0
  {
    Sum(Cells(prog, c)) + ParentCost(c.s)
  }

  /** What an event changes in the cell of iteration n, when it changes that of k by d and
      that of the next one by e at most. */
  predicate CellChanges(prog: Program, c: Traced, c': Traced, n: int, k: int, d: int, e: nat)
    requires PiperProgram.Follows(c) && |c.s.ring| > 0 && PiperProgram.Follows(c') && |c'.s.ring| > 0 && n >= 1
  {
    Cell(prog, c', n) <= Cell(prog, c, n) + (if n == k then d else if n == k + 1 then e else 0)
  }

  lemma CellsChange(prog: Program, c: Traced, c': Traced, k: int, d: int, e: nat)
    requires PiperProgram.Follows(c) && |c.s.ring| > 0 && PiperProgram.Follows(c') && |c'.s.ring| > 0
    requires forall n | 1 <= n <= |prog| + 1 :: CellChanges(prog, c, c', n, k, d, e)
    ensures ChangesAt(Cells(prog, c), Cells(prog, c'), k - 1, d, e)
  {
    var xs, ys := Cells(prog, c), Cells(prog, c');
    forall i: nat | i < |xs| ensures ys[i] <= xs[i] + (if i == k - 1 then d else if i == k then e else 0) {
      assert CellChanges(prog, c, c', i + 1, k, d, e);
    }
  }

  /** Cells that change at one place and behind it change the sum by no more. */
  lemma BudgetChanges(prog: Program, c: Traced, c': Traced, k: int, d: int, e: nat, p: int)
    requires PiperProgram.Follows(c) && |c.s.ring| > 0 && PiperProgram.Follows(c') && |c'.s.ring| > 0
    requires forall n | 1 <= n <= |prog| + 1 :: CellChanges(prog, c, c', n, k, d, e)
    requires ParentCost(c'.s) <= ParentCost(c.s) + p && (1 <= k <= |prog| + 1 || d == 0)
    ensures Budget(prog, c') <= Budget(prog, c) + d + e + p
  {
    CellsChange(prog, c, c', k, d, e);
    SumChanges(Cells(prog, c), Cells(prog, c'), k - 1, d, e);
  }

  // ------------------------------------------------------------ what an event costs

  /** Both before and after the event all is well. */
  ghost predicate Moves(prog: Program, c: Traced, e: Event, c': Traced) {
    TracedInv(prog, c) && TracedInv(prog, c') && IsMove(prog, c, e, c')
  }

  /** By how much an event shortens the text of iteration n. */
  function TextPaid(prog: Program, c: Traced, e: Event, n: int): nat
    requires May(prog, c, e)
  {
    if !Concerns(prog, c, e, n) then 0 else if e.FirstCall? then 2 else 1
  }

  lemma TextGetsShorter(prog: Program, c: Traced, e: Event, c': Traced, n: int)
    requires Moves(prog, c, e, c') && 1 <= n <= Started(c.s)
    ensures n <= |c'.pcs| && TextLeft(prog, c'.pcs, n) + TextPaid(prog, c, e, n) == TextLeft(prog, c.pcs, n)
  {
    assert TextOk(prog, c, n) && (n <= |prog| ==> RowFits(prog, n - 1));
    PcGoesOn(prog, c, e, n);
  }

  lemma CallCell(prog: Program, c: Traced, e: Event, c': Traced, n: int)
    requires Moves(prog, c, e, c') && (e.FirstCall? || e.StageCall?) && 1 <= n
    ensures CellChanges(prog, c, c', n, IterAt(c.s, e.w), -6, 0)
  {
    if n <= Started(c.s) { TextGetsShorter(prog, c, e, c', n); }
  }

  /** A call is paid for by its text. */
  lemma CallPays(prog: Program, c: Traced, e: Event, c': Traced)
    requires Moves(prog, c, e, c') && (e.FirstCall? || e.StageCall?)
    ensures Budget(prog, c') < Budget(prog, c)
  {
    forall n | 1 <= n <= |prog| + 1 ensures CellChanges(prog, c, c', n, IterAt(c.s, e.w), -6, 0) {
      CallCell(prog, c, e, c', n);
    }
    BudgetChanges(prog, c, c', IterAt(c.s, e.w), -6, 0, 0);
  }

  lemma StepCell(prog: Program, c: Traced, a: Step, c': Traced, n: int)
    requires Moves(prog, c, Runtime(a), c') && 1 <= n <= Started(c.s) && !IsOwnOf(c.s, a, n)
    ensures Cell(prog, c', n) <= Cell(prog, c, n) + if MovesCounter(a) && n == IterAt(c.s, a.w) + 1 then 1 else 0
  {
    OthersCostNoMore(c.s, a, n);
    TextGetsShorter(prog, c, Runtime(a), c', n);
  }

  lemma LaterCell(prog: Program, c: Traced, c': Traced, n: int)
    requires PiperProgram.Follows(c) && |c.s.ring| > 0 && PiperProgram.Follows(c') && |c'.s.ring| > 0
    requires Started(c'.s) == Started(c.s) < n
    ensures Cell(prog, c', n) == Cell(prog, c, n)
  {
  }

  lemma OtherCell(prog: Program, c: Traced, a: Step, c': Traced, n: int)
    requires Moves(prog, c, Runtime(a), c') && !a.StartIteration? && n >= 1 && !IsOwnOf(c.s, a, n)
    ensures Cell(prog, c', n) <= Cell(prog, c, n) + if MovesCounter(a) && n == IterAt(c.s, a.w) + 1 then 1 else 0
  {
    StartedStays(c.s, a);
    if n <= Started(c.s) { StepCell(prog, c, a, c', n); } else { LaterCell(prog, c, c', n); }
  }

  /** What a step takes from the cell of its own iteration. */
  function OwnCellChange(a: Step): int {
    OwnChange(a) - if a.Advance? || a.BeginWait? then 6 else 0
  }

  lemma OwnCell(prog: Program, c: Traced, a: Step, c': Traced)
    requires Moves(prog, c, Runtime(a), c') && IsOwn(a) && c' != c
    ensures Cell(prog, c', IterAt(c.s, a.w)) <= Cell(prog, c, IterAt(c.s, a.w)) + OwnCellChange(a)
  {
    OwnCostChanges(c.s, a);
    TextGetsShorter(prog, c, Runtime(a), c', IterAt(c.s, a.w));
  }

  function RightChange(a: Step): nat { if MovesCounter(a) then 1 else 0 }

  lemma OwnStepCell(prog: Program, c: Traced, a: Step, c': Traced, n: int)
    requires Moves(prog, c, Runtime(a), c') && IsOwn(a) && c' != c && n >= 1
    ensures CellChanges(prog, c, c', n, IterAt(c.s, a.w), OwnCellChange(a), RightChange(a))
  {
    if n == IterAt(c.s, a.w) { OwnCell(prog, c, a, c'); } else { OtherCell(prog, c, a, c', n); }
  }

  lemma OwnIterationIsCounted(s: State, a: Step)
    requires Can(s, a) && IsOwn(a)
    ensures 1 <= IterAt(s, a.w) <= Started(s) && OwnCellChange(a) + RightChange(a) + ParentChange(a) < 0
  {
  }

  /** A step that an iteration makes for itself is paid for by that iteration. */
  lemma OwnStepPays(prog: Program, c: Traced, a: Step, c': Traced)
    requires Moves(prog, c, Runtime(a), c') && IsOwn(a) && c' != c
    ensures Budget(prog, c') < Budget(prog, c)
  {
    var k, d, e := IterAt(c.s, a.w), OwnCellChange(a), RightChange(a);
    forall n | 1 <= n <= |prog| + 1 ensures CellChanges(prog, c, c', n, k, d, e) {
      OwnStepCell(prog, c, a, c', n);
    }
    OwnIterationIsCounted(c.s, a);
    ParentsChange(c.s, a);
    BudgetChanges(prog, c, c', k, d, e, ParentChange(a));
  }

  lemma AnyCell(prog: Program, c: Traced, a: Step, c': Traced, n: int)
    requires Moves(prog, c, Runtime(a), c') && !IsOwn(a) && !a.StartIteration? && n >= 1
    ensures CellChanges(prog, c, c', n, 0, 0, 0)
  {
    OtherCell(prog, c, a, c', n);
  }

  /** A step of control is paid for by its turn. */
  lemma ControlStepPays(prog: Program, c: Traced, a: Step, c': Traced)
    requires Moves(prog, c, Runtime(a), c') && IsControl(a) && !a.StartIteration?
    ensures Budget(prog, c') < Budget(prog, c)
  {
    forall n | 1 <= n <= |prog| + 1 ensures CellChanges(prog, c, c', n, 0, 0, 0) {
      AnyCell(prog, c, a, c', n);
    }
    ParentsChange(c.s, a);
    BudgetChanges(prog, c, c', 0, 0, 0, -1);
  }

  lemma NewCell(prog: Program, c: Traced, w: nat, c': Traced)
    requires Moves(prog, c, Runtime(StartIteration(w)), c')
    ensures Started(c'.s) == Started(c.s) + 1
    ensures Cell(prog, c', Started(c.s) + 1) == Price(prog, Started(c.s) + 1) - 5
  {
  }

  lemma StartCell(prog: Program, c: Traced, w: nat, c': Traced, n: int)
    requires Moves(prog, c, Runtime(StartIteration(w)), c') && n >= 1
    ensures CellChanges(prog, c, c', n, Started(c.s) + 1, -5, 0)
  {
    NewCell(prog, c, w, c');
    if n <= Started(c.s) { StepCell(prog, c, StartIteration(w), c', n); }
  }

  /** Starting an iteration is paid for by the price of one that has not started. */
  lemma StartPays(prog: Program, c: Traced, w: nat, c': Traced)
    requires Moves(prog, c, Runtime(StartIteration(w)), c')
    ensures Budget(prog, c') < Budget(prog, c)
  {
    var k := Started(c.s) + 1;
    forall n | 1 <= n <= |prog| + 1 ensures CellChanges(prog, c, c', n, k, -5, 0) {
      StartCell(prog, c, w, c', n);
    }
    ParentsChange(c.s, StartIteration(w));
    BudgetChanges(prog, c, c', k, -5, 0, 4);
  }

  /** Asking a worker for work either changes nothing, or takes its parent, or resumes
      the iteration to its right. */
  lemma StealingPays(s: State, t: nat, w: nat)
    requires Inv(s) && Can(s, ImplicitSteal(t, w)) && DoImplicitSteal(s, t, w) != s
    ensures var n := IterAt(s, w);
            || ParentCost(DoImplicitSteal(s, t, w)) < ParentCost(s)
            || (n + 1 <= Started(s) == Started(DoImplicitSteal(s, t, w)) && Cost(DoImplicitSteal(s, t, w), n + 1) < Cost(s, n + 1))
  {
    var n, s' := IterAt(s, w), DoImplicitSteal(s, t, w);
    ImplicitStealParents(s, t, w);
    if !HasParent(s.workers[w]) {
      assert s.workers[w := s.workers[w]] == s.workers;
      RunnerFacts(s, w);
      RightIsNext(s, n);
      OthersStay(s, ImplicitSteal(t, w), n + 1);
      ResumingKeeps(s, n, s', n + 1);
    }
  }

  lemma StolenCell(prog: Program, c: Traced, t: nat, w: nat, c': Traced)
    requires Moves(prog, c, Runtime(ImplicitSteal(t, w)), c') && c' != c && ParentCost(c'.s) >= ParentCost(c.s)
    ensures Cell(prog, c', IterAt(c.s, w) + 1) < Cell(prog, c, IterAt(c.s, w) + 1)
  {
    StealingPays(c.s, t, w);
    TextGetsShorter(prog, c, Runtime(ImplicitSteal(t, w)), c', IterAt(c.s, w) + 1);
  }

  lemma StolenCellAt(prog: Program, c: Traced, t: nat, w: nat, c': Traced, n: int)
    requires Moves(prog, c, Runtime(ImplicitSteal(t, w)), c') && c' != c && n >= 1
    requires ParentCost(c'.s) >= ParentCost(c.s)
    ensures CellChanges(prog, c, c', n, IterAt(c.s, w) + 1, -1, 0)
  {
    if n == IterAt(c.s, w) + 1 {
      StolenCell(prog, c, t, w, c');
    } else {
      OtherCell(prog, c, ImplicitSteal(t, w), c', n);
    }
  }

  lemma NextIterationIsCounted(s: State, t: nat, w: nat)
    requires Inv(s) && Can(s, ImplicitSteal(t, w)) && DoImplicitSteal(s, t, w) != s
    requires ParentCost(DoImplicitSteal(s, t, w)) >= ParentCost(s)
    ensures 1 <= IterAt(s, w) + 1 <= Started(s)
  {
    StealingPays(s, t, w);
  }

  lemma ResumingPays(prog: Program, c: Traced, t: nat, w: nat, c': Traced)
    requires Moves(prog, c, Runtime(ImplicitSteal(t, w)), c') && c' != c && ParentCost(c'.s) >= ParentCost(c.s)
    ensures Budget(prog, c') < Budget(prog, c)
  {
    var k := IterAt(c.s, w) + 1;
    forall n | 1 <= n <= |prog| + 1 ensures CellChanges(prog, c, c', n, k, -1, 0) {
      StolenCellAt(prog, c, t, w, c', n);
    }
    NextIterationIsCounted(c.s, t, w);
    ParentsChange(c.s, ImplicitSteal(t, w));
    BudgetChanges(prog, c, c', k, -1, 0, 0);
  }

  lemma ImplicitStealPays(prog: Program, c: Traced, t: nat, w: nat, c': Traced)
    requires Moves(prog, c, Runtime(ImplicitSteal(t, w)), c') && c' != c
    ensures Budget(prog, c') < Budget(prog, c)
  {
    if ParentCost(c'.s) >= ParentCost(c.s) {
      ResumingPays(prog, c, t, w, c');
    } else {
      forall n | 1 <= n <= |prog| + 1 ensures CellChanges(prog, c, c', n, 0, 0, 0) {
        AnyCell(prog, c, ImplicitSteal(t, w), c', n);
      }
      BudgetChanges(prog, c, c', 0, 0, 0, -1);
    }
  }

  /** Every event that changes anything lowers the budget. */
  lemma EventPays(prog: Program, c: Traced, e: Event)
    requires TracedInv(prog, c) && May(prog, c, e) && Move(prog, c, e) != c
    ensures TracedInv(prog, Move(prog, c, e)) && Budget(prog, Move(prog, c, e)) < Budget(prog, c)
  {
    EventKeepsTracedInv(prog, c, e);
    MovePays(prog, c, e, Move(prog, c, e));
  }

  lemma MovePays(prog: Program, c: Traced, e: Event, c': Traced)
    requires Moves(prog, c, e, c') && c' != c
    ensures Budget(prog, c') < Budget(prog, c)
  {
    match e
    case FirstCall(w) => CallPays(prog, c, e, c');
    case StageCall(w) => CallPays(prog, c, e, c');
    case Runtime(a) =>
      if a.StartIteration? {
        StartPays(prog, c, a.w, c');
      } else if IsControl(a) {
        ControlStepPays(prog, c, a, c');
      } else if a.ImplicitSteal? {
        ImplicitStealPays(prog, c, a.t, a.w, c');
      } else {
        OwnStepPays(prog, c, a, c');
      }
    case Access(_, _, _) =>
  }

  // ----------------------------------------------------------------------- all runs

  function StageCount(prog: Program): nat {
    if |prog| == 0 then 0 else StageCount(prog[..|prog| - 1]) + |prog[|prog| - 1]|
  }

  /** How many events of a run of the program can change anything. */
  function Bound(prog: Program): nat {
    12 * StageCount(prog) + 28 * (|prog| + 1) + 1
  }

  lemma {:induction false} SumOfPrices(prog: Program, ps: seq<nat>, k: nat)
    requires k <= |prog| && |ps| >= k && forall i: nat | i < k :: ps[i] == Price(prog, i + 1)
    ensures Sum(ps[..k]) == 12 * StageCount(prog[..k]) + 28 * k
  {
    if k > 0 {
      SumOfPrices(prog, ps, k - 1);
      assert ps[..k][..k - 1] == ps[..k - 1] && prog[..k][..k - 1] == prog[..k - 1];
    }
  }

  lemma StartBudget(prog: Program, c: Traced)
    requires IsStart(c.s) && c.pcs == []
    ensures Budget(prog, c) == Bound(prog)
  {
    var ps := Cells(prog, c);
    assert forall i: nat | i <= |prog| :: ps[i] == Price(prog, i + 1);
    SumOfPrices(prog, ps, |prog|);
    assert prog[..|prog|] == prog;
    CountNone(c.s.workers, HasParent);
  }

  /** How many of the first n events have changed anything. */
  function Changes(run: seq<Traced>, n: nat): nat
    requires n < |run|
  {
    if n == 0 then 0 else Changes(run, n - 1) + if run[n] != run[n - 1] then 1 else 0
  }

  lemma {:induction false} ChangesArePaid(prog: Program, run: seq<Traced>, events: seq<Event>, n: nat)
    requires ProgramFits(prog) && IsTracedRun(prog, run, events) && n <= |events|
    ensures TracedInv(prog, run[n]) && Changes(run, n) + Budget(prog, run[n]) <= Bound(prog)
  {
    if n == 0 {
      StartHasTracedInv(prog, run[0]);
      StartBudget(prog, run[0]);
    } else {
      ChangesArePaid(prog, run, events, n - 1);
      assert IsMove(prog, run[n - 1], events[n - 1], run[n]);
      MoveKeepsTracedInv(prog, run[n - 1], events[n - 1], run[n]);
      if run[n] != run[n - 1] { MovePays(prog, run[n - 1], events[n - 1], run[n]); }
    }
  }

  /** Over every run of a program under the runtime, whatever the workers do: only so many
      events change anything, as a fixed number for each stage and iteration. What is left
      are accesses, looks at a counter that has not moved and vain attempts to steal or
      suspend. */
  lemma OnlySoMuchHappens(prog: Program, run: seq<Traced>, events: seq<Event>, n: nat)
    requires ProgramFits(prog) && IsTracedRun(prog, run, events) && n <= |events|
    ensures Changes(run, n) <= Bound(prog)
  {
    ChangesArePaid(prog, run, events, n);
  }

  function NextOf(prog: Program): (Traced, Event) -> Option<Traced> {
    (c: Traced, e: Event) => if May(prog, c, e) then Some(Move(prog, c, e)) else None
  }

  /** The state after the given events, if every one of them was possible. */
  function AfterEvents(prog: Program, c: Traced, events: seq<Event>): Option<Traced> {
    Iterated(NextOf(prog), c, events)
  }

  lemma {:induction false} CanFinish(prog: Program, c: Traced) returns (more: seq<Event>)
    requires TracedInv(prog, c)
    ensures AfterEvents(prog, c, more).Some? && HasFinished(AfterEvents(prog, c, more).value.s)
    ensures |more| <= Budget(prog, c)
    decreases Budget(prog, c)
  {
    if HasFinished(c.s) {
      more := [];
    } else {
      ProgramGoesOn(prog, c);
      var e: Event :| May(prog, c, e) && Move(prog, c, e) != c;
      EventPays(prog, c, e);
      var rest := CanFinish(prog, Move(prog, c, e));
      IteratedOne(NextOf(prog), c, e, rest);
      more := [e] + rest;
    }
  }

  /** From every state of every run some continuation finishes the program. */
  lemma RunCanFinish(prog: Program, run: seq<Traced>, events: seq<Event>, n: nat) returns (more: seq<Event>)
    requires ProgramFits(prog) && IsTracedRun(prog, run, events) && n <= |events|
    ensures AfterEvents(prog, run[n], more).Some? && HasFinished(AfterEvents(prog, run[n], more).value.s)
    ensures Changes(run, n) + |more| <= Bound(prog)
  {
    ChangesArePaid(prog, run, events, n);
    more := CanFinish(prog, run[n]);
  }
}
