/** Race detection over whole runs of a pipeline, and exactly when it is exact. */
module RaceDetection {
  import opened Basics
  import opened PipelineDag
  import opened LeftDependency
  import opened SerialOrder
  import opened StageOrders
  import opened AccessHistory
  import opened PipelineRun
  import opened OrderList

  /** The state after the given steps, if every one of them was possible. */
  ghost function Execute(prog: Program, steps: seq<Step>): (res: Option<Run>)
    requires ValidProgram(prog)
    ensures res.Some? ==> RunInv(prog, res.value)
  {
    StartHasInv(prog);
    if |steps| == 0 then Some(START)
    else
      var r, s := Execute(prog, steps[..|steps| - 1]), steps[|steps| - 1];
      if r.Some? && CanDo(prog, r.value, s) then
        StepKeepsInv(prog, r.value, s);
        Some(Do(prog, r.value, s))
      else None
  }

  lemma ExecuteMore(prog: Program, steps: seq<Step>, d: Step)
    requires ValidProgram(prog) && Execute(prog, steps).Some?
    requires CanDo(prog, Execute(prog, steps).value, d)
    ensures Execute(prog, steps + [d])
         == Some(Do(prog, Execute(prog, steps).value, d))
  {
    assert (steps + [d])[..|steps + [d]| - 1] == steps;
  }

  /** Two runs of a program, interleaved in any way, list the stages that both
      have entered in the same orders. */
  lemma RunsListAlike(prog: Program, s1: seq<Step>, s2: seq<Step>, x: Stage, y: Stage)
    requires ValidProgram(prog) && Execute(prog, s1).Some? && Execute(prog, s2).Some?
    requires HasFrame(Execute(prog, s1).value.orders, x) && HasFrame(Execute(prog, s1).value.orders, y)
    requires HasFrame(Execute(prog, s2).value.orders, x) && HasFrame(Execute(prog, s2).value.orders, y)
    ensures var o1, o2 := Execute(prog, s1).value.orders, Execute(prog, s2).value.orders;
            && (Precedes(o1.hebrew, FrameOf(o1, x).rightFirst.current, FrameOf(o1, y).rightFirst.current)
                <==> Precedes(o2.hebrew, FrameOf(o2, x).rightFirst.current, FrameOf(o2, y).rightFirst.current))
            && (Precedes(o1.english, FrameOf(o1, x).downFirst.current, FrameOf(o1, y).downFirst.current)
                <==> Precedes(o2.english, FrameOf(o2, x).downFirst.current, FrameOf(o2, y).downFirst.current))
            && (Precedes(o1.english, FrameOf(o1, x).downFirst.current, FrameOf(o1, y).downFirst.current)
                <==> SerialBefore(x, y))
  {
    ListsFollowProgram(prog, Execute(prog, s1).value, x, y);
    ListsFollowProgram(prog, Execute(prog, s2).value, x, y);
  }

  predicate ConflictingTouches(a: Touch, b: Touch) {
    !a.isRead || !b.isRead
  }

  /** Two touches of stages that the program leaves unordered, one of them a write. */
  ghost predicate IsRace(prog: Program, a: Touch, b: Touch) {
    && ConflictingTouches(a, b)
    && !MustFollow(prog, a.stage, b.stage) && !MustFollow(prog, b.stage, a.stage)
  }

  ghost predicate IsRecordedRace(prog: Program, a: Touch, b: Touch) {
    && ConflictingTouches(a, b)
    && !Reaches(RecordedDag(prog), a.stage, b.stage) && !Reaches(RecordedDag(prog), b.stage, a.stage)
  }

  lemma TraceIsConsistent(prog: Program, r: Run)
    requires RunInv(prog, r)
    ensures DagConsistent(ListsOf(r.orders), Accesses(r.orders, r.touches))
  {
    var o, tr := ListsOf(r.orders), Accesses(r.orders, r.touches);
    StrandsAreAllocated(r.orders, r.touches);
    InvBounds(r.orders);
    forall i | 0 <= i < |tr| ensures Listed(o, tr[i].acc) {
      NodesAreThere(o.english, tr[i].acc.estrand);
      NodesAreThere(o.hebrew, tr[i].acc.hstrand);
    }
    forall i: nat, j: nat | i < |tr| && j < |tr| ensures MayPrecede(o, tr, i, j) {
      var x, y := r.touches[i].stage, r.touches[j].stage;
      assert HasFrame(r.orders, x) && HasFrame(r.orders, y);
      ListsFollowProgram(prog, r, y, x);
      ListOrders(r.orders, x, y);
      if i < j {
        assert TouchesInOrder(prog, r.touches, i, j);
      }
    }
  }

  lemma PairsAreRaces(prog: Program, r: Run, i: nat, j: nat)
    requires RunInv(prog, r) && i < j < |r.touches|
    ensures RacingPair(ListsOf(r.orders), Accesses(r.orders, r.touches), i, j)
       <==> IsRecordedRace(prog, r.touches[i], r.touches[j])
  {
    var x, y := r.touches[i].stage, r.touches[j].stage;
    assert HasFrame(r.orders, x) && HasFrame(r.orders, y);
    ListsFollowProgram(prog, r, x, y);
  }

  /** In terms of the touches recorded: something is flagged exactly if two of them race. */
  lemma TouchesDecide(prog: Program, r: Run)
    requires RunInv(prog, r)
    ensures r.flagged <==> exists i: nat, j: nat | i < j < |r.touches| :: IsRecordedRace(prog, r.touches[i], r.touches[j])
  {
    var o, tr := ListsOf(r.orders), Accesses(r.orders, r.touches);
    TraceIsConsistent(prog, r);
    DetectionIsExact(o, tr);
    if r.flagged {
      var i: nat, j: nat :| i < j < |tr| && RacingPair(o, tr, i, j);
      PairsAreRaces(prog, r, i, j);
    }
    if i: nat, j: nat :| i < j < |tr| && IsRecordedRace(prog, r.touches[i], r.touches[j]) {
      PairsAreRaces(prog, r, i, j);
      assert RacingPair(o, tr, i, j);
    }
  }

  // ------------------------------------------------- the accesses among the steps

  /** How often the steps have entered a later stage of iteration i. */
  function Entries(steps: seq<Step>, i: nat): nat {
    if |steps| == 0 then 0
    else Entries(steps[..|steps| - 1], i) + if steps[|steps| - 1] == Enter(i) then 1 else 0
  }

  /** Step k is an access; its stage is the one that its iteration has entered last. */
  function TouchBy(steps: seq<Step>, k: nat): Touch
    requires k < |steps| && steps[k].Use?
  {
    Touch(Stage(steps[k].i, Entries(steps[..k], steps[k].i)), steps[k].isRead, steps[k].rip)
  }

  /** All accesses among the steps, in their order. */
  function Uses(steps: seq<Step>): seq<Touch> {
    if |steps| == 0 then []
    else
      var l := |steps| - 1;
      Uses(steps[..l]) + if steps[l].Use? then [TouchBy(steps, l)] else []
  }

  predicate EntriesAreCounted(steps: seq<Step>, r: Run) {
    |r.iters| == |Rows(r)| && forall i: nat | i < |r.iters| :: |Rows(r)[i].frames| == 1 + Entries(steps, i)
  }

  /** What a step appends to the accesses recorded. */
  predicate StepTouches(r: Run, s: Step, r': Run) {
    if s.Use? then
      && s.i < |Rows(r)| && |Rows(r)[s.i].frames| > 0
      && r'.touches == r.touches + [Touch(Current(r, s.i), s.isRead, s.rip)]
    else r'.touches == r.touches
  }

  lemma LastStep(prog: Program, steps: seq<Step>)
    requires ValidProgram(prog) && Execute(prog, steps).Some? && |steps| > 0
    ensures var before := Execute(prog, steps[..|steps| - 1]);
            && before.Some? && StepShape(before.value, steps[|steps| - 1], Execute(prog, steps).value)
            && StepTouches(before.value, steps[|steps| - 1], Execute(prog, steps).value)
  {
    var r, s := Execute(prog, steps[..|steps| - 1]).value, steps[|steps| - 1];
    StepShapes(prog, r, s);
    StepTouchesOnce(prog, r, s);
  }

  lemma StepTouchesOnce(prog: Program, r: Run, s: Step)
    requires RunInv(prog, r) && CanDo(prog, r, s)
    ensures StepTouches(r, s, Do(prog, r, s))
  {
  }

  lemma {:induction false} NothingEnteredYet(prog: Program, steps: seq<Step>, i: nat)
    requires ValidProgram(prog) && Execute(prog, steps).Some? && i >= |Execute(prog, steps).value.iters|
    ensures Entries(steps, i) == 0
  {
    if |steps| > 0 {
      LastStep(prog, steps);
      NothingEnteredYet(prog, steps[..|steps| - 1], i);
    }
  }

  lemma OneStepCounted(steps: seq<Step>, r: Run, r': Run)
    requires |steps| > 0 && StepShape(r, steps[|steps| - 1], r') && EntriesAreCounted(steps[..|steps| - 1], r)
    requires Entries(steps[..|steps| - 1], |r.iters|) == 0
    ensures EntriesAreCounted(steps, r')
  {
    var before, s := steps[..|steps| - 1], steps[|steps| - 1];
    forall i: nat | i < |r'.iters| ensures |Rows(r')[i].frames| == 1 + Entries(steps, i) {
      assert Entries(steps, i) == Entries(before, i) + if s == Enter(i) then 1 else 0;
    }
  }

  /** The stage that an iteration is in follows from the steps made. */
  lemma {:induction false} StepsAreCounted(prog: Program, steps: seq<Step>)
    requires ValidProgram(prog) && Execute(prog, steps).Some?
    ensures EntriesAreCounted(steps, Execute(prog, steps).value)
  {
    if |steps| == 0 {
      assert Execute(prog, steps).value == START;
    } else {
      var before := steps[..|steps| - 1];
      LastStep(prog, steps);
      StepsAreCounted(prog, before);
      NothingEnteredYet(prog, before, |Execute(prog, before).value.iters|);
      OneStepCounted(steps, Execute(prog, before).value, Execute(prog, steps).value);
    }
  }

  lemma OneMoreUse(steps: seq<Step>, r: Run, r': Run)
    requires |steps| > 0 && r.touches == Uses(steps[..|steps| - 1]) && EntriesAreCounted(steps[..|steps| - 1], r)
    requires StepTouches(r, steps[|steps| - 1], r')
    ensures r'.touches == Uses(steps)
  {
  }

  /** The detector records the accesses among the steps: each of them, in their order,
      as the read or write it is, and in the stage that its iteration was in. */
  lemma {:induction false} TouchesAreUses(prog: Program, steps: seq<Step>)
    requires ValidProgram(prog) && Execute(prog, steps).Some?
    ensures Execute(prog, steps).value.touches == Uses(steps)
  {
    if |steps| > 0 {
      var l := |steps| - 1;
      LastStep(prog, steps);
      TouchesAreUses(prog, steps[..l]);
      StepsAreCounted(prog, steps[..l]);
      OneMoreUse(steps, Execute(prog, steps[..l]).value, Execute(prog, steps).value);
    }
  }

  lemma {:induction false} PlaceOfUse(steps: seq<Step>, k: nat) returns (j: nat)
    requires k < |steps| && steps[k].Use?
    ensures j == |Uses(steps[..k])| < |Uses(steps)| && Uses(steps)[j] == TouchBy(steps, k)
  {
    var l := |steps| - 1;
    if k < l {
      assert steps[..l][..k] == steps[..k];
      j := PlaceOfUse(steps[..l], k);
    } else {
      j := |Uses(steps[..l])|;
    }
  }

  lemma {:induction false} UseAtPlace(steps: seq<Step>, j: nat) returns (k: nat)
    requires j < |Uses(steps)|
    ensures k < |steps| && steps[k].Use? && |Uses(steps[..k])| == j && Uses(steps)[j] == TouchBy(steps, k)
  {
    var l := |steps| - 1;
    if j < |Uses(steps[..l])| {
      k := UseAtPlace(steps[..l], j);
      assert steps[..l][..k] == steps[..k];
    } else {
      k := l;
    }
  }

  lemma UsesInOrder(steps: seq<Step>, m: nat, n: nat)
    requires m < n < |steps| && steps[m].Use?
    ensures |Uses(steps[..m])| < |Uses(steps[..n])|
  {
    assert steps[..n][..m] == steps[..m];
    var j := PlaceOfUse(steps[..n], m);
  }

  /** Steps m and n are accesses that race as the program orders its stages. */
  ghost predicate StepsRace(prog: Program, steps: seq<Step>, m: nat, n: nat)
    requires m < |steps| && n < |steps|
  {
    steps[m].Use? && steps[n].Use? && IsRace(prog, TouchBy(steps, m), TouchBy(steps, n))
  }

  ghost predicate StepsRaceAsRecorded(prog: Program, steps: seq<Step>, m: nat, n: nat)
    requires m < |steps| && n < |steps|
  {
    steps[m].Use? && steps[n].Use? && IsRecordedRace(prog, TouchBy(steps, m), TouchBy(steps, n))
  }

  /** Two places in the list of accesses belong to two steps in the same order. */
  lemma UsesAtPlaces(steps: seq<Step>, i: nat, j: nat) returns (m: nat, n: nat)
    requires i < j < |Uses(steps)|
    ensures m < n < |steps| && steps[m].Use? && steps[n].Use?
    ensures Uses(steps)[i] == TouchBy(steps, m) && Uses(steps)[j] == TouchBy(steps, n)
  {
    m := UseAtPlace(steps, i);
    n := UseAtPlace(steps, j);
    if n < m {
      UsesInOrder(steps, n, m);
    }
  }

  /** Over every run: something is flagged exactly if two steps accessed the word, one
      of them to write, in stages neither of which reaches the other in the recorded dag. */
  lemma DetectorIsExact(prog: Program, steps: seq<Step>)
    requires ValidProgram(prog) && Execute(prog, steps).Some?
    ensures Execute(prog, steps).value.flagged
       <==> exists m: nat, n: nat | m < n < |steps| :: StepsRaceAsRecorded(prog, steps, m, n)
  {
    var r := Execute(prog, steps).value;
    TouchesDecide(prog, r);
    TouchesAreUses(prog, steps);
    if r.flagged {
      var i: nat, j: nat :| i < j < |r.touches| && IsRecordedRace(prog, r.touches[i], r.touches[j]);
      var m, n := UsesAtPlaces(steps, i, j);
      assert StepsRaceAsRecorded(prog, steps, m, n);
    }
    if m: nat, n: nat :| m < n < |steps| && StepsRaceAsRecorded(prog, steps, m, n) {
      UsesInOrder(steps, m, n);
      var i := PlaceOfUse(steps, m);
      var j := PlaceOfUse(steps, n);
      assert IsRecordedRace(prog, r.touches[i], r.touches[j]);
    }
  }

  lemma RecordedRaceMatches(prog: Program, a: Touch, b: Touch)
    requires ProgramInOrder(prog) && HasStage(prog, a.stage) && HasStage(prog, b.stage)
    ensures IsRace(prog, a, b) ==> IsRecordedRace(prog, a, b)
    ensures NoRepeatedWait(prog) && IsRecordedRace(prog, a, b) ==> IsRace(prog, a, b)
  {
    if Reaches(RecordedDag(prog), a.stage, b.stage) { RecordedReachIsFollowed(prog, a.stage, b.stage); }
    if Reaches(RecordedDag(prog), b.stage, a.stage) { RecordedReachIsFollowed(prog, b.stage, a.stage); }
    DroppingEdgesPreservesMeaningIff(prog);
  }

  lemma UsedStagesExist(prog: Program, steps: seq<Step>, k: nat)
    requires ValidProgram(prog) && Execute(prog, steps).Some? && k < |steps| && steps[k].Use?
    ensures HasStage(prog, TouchBy(steps, k).stage)
  {
    var r := Execute(prog, steps).value;
    TouchesAreUses(prog, steps);
    var j := PlaceOfUse(steps, k);
    assert HasFrame(r.orders, r.touches[j].stage);
    assert RowFollows(prog, r, r.touches[j].stage.iter);
  }

  lemma RacingStepsMatch(prog: Program, steps: seq<Step>, m: nat, n: nat)
    requires ValidProgram(prog) && Execute(prog, steps).Some? && m < n < |steps|
    ensures StepsRace(prog, steps, m, n) ==> StepsRaceAsRecorded(prog, steps, m, n)
    ensures NoRepeatedWait(prog) && StepsRaceAsRecorded(prog, steps, m, n) ==> StepsRace(prog, steps, m, n)
  {
    if steps[m].Use? && steps[n].Use? {
      UsedStagesExist(prog, steps, m);
      UsedStagesExist(prog, steps, n);
      RecordedRaceMatches(prog, TouchBy(steps, m), TouchBy(steps, n));
    }
  }

  /** Over every run of every program no race goes unflagged. */
  lemma NoRaceIsMissed(prog: Program, steps: seq<Step>)
    requires ValidProgram(prog) && Execute(prog, steps).Some?
    ensures (exists m: nat, n: nat | m < n < |steps| :: StepsRace(prog, steps, m, n)) ==> Execute(prog, steps).value.flagged
  {
    DetectorIsExact(prog, steps);
    if m: nat, n: nat :| m < n < |steps| && StepsRace(prog, steps, m, n) {
      RacingStepsMatch(prog, steps, m, n);
    }
  }

  // -------------------------------------------------------- runs that do as told

  ghost predicate AllBefore(prog: Program, r: Run, i: nat)
    requires Follows(prog, r)
  {
    forall m: nat | m < i :: DoneAt(prog, r, m)
  }

  /** Everything before the current stage of the last iteration is done. */
  ghost predicate DoneUpTo(prog: Program, r: Run, c: Stage) {
    && Follows(prog, r) && HasStage(prog, c)
    && |r.iters| == c.iter + 1 && |Rows(r)[c.iter].frames| == c.index + 1 && !r.iters[c.iter].announced
    && AllBefore(prog, r, c.iter)
  }

  /** Stages x and y write, in this order. */
  function WritesUpTo(x: Stage, y: Stage, c: Stage): seq<Touch> {
    (if c == x || SerialBefore(x, c) then [Touch(x, false, 0)] else [])
    + (if c == y || SerialBefore(y, c) then [Touch(y, false, 0)] else [])
  }

  lemma OneMoreStep(prog: Program, steps: seq<Step>, s: Step)
    requires ValidProgram(prog) && Execute(prog, steps).Some? && CanDo(prog, Execute(prog, steps).value, s)
    ensures Execute(prog, steps + [s]) == Some(Do(prog, Execute(prog, steps).value, s))
  {
    var all := steps + [s];
    assert all[..|all| - 1] == steps && all[|all| - 1] == s;
  }

  lemma WriteIfAsked(prog: Program, steps: seq<Step>, x: Stage, y: Stage, c: Stage)
    returns (more: seq<Step>)
    requires ValidProgram(prog) && Execute(prog, steps).Some?
    requires DoneUpTo(prog, Execute(prog, steps).value, c)
    ensures Execute(prog, more).Some? && DoneUpTo(prog, Execute(prog, more).value, c)
    ensures Execute(prog, more).value.touches
         == Execute(prog, steps).value.touches + if c == x || c == y then [Touch(c, false, 0)] else []
  {
    more := steps;
    if c == x || c == y {
      var s := Use(c.iter, false, 0);
      OneMoreStep(prog, steps, s);
      more := steps + [s];
      var r, r' := Execute(prog, steps).value, Execute(prog, more).value;
      forall i: nat | i < c.iter ensures DoneAt(prog, r', i) {
        assert DoneAt(prog, r, i);
      }
    }
  }

  lemma SerialStart(prog: Program)
    returns (steps: seq<Step>)
    requires ValidProgram(prog) && HasStage(prog, Stage(0, 0))
    ensures Execute(prog, steps).Some? && DoneUpTo(prog, Execute(prog, steps).value, Stage(0, 0))
    ensures Execute(prog, steps).value.touches == []
  {
    assert Execute(prog, []) == Some(START);
    OneMoreStep(prog, [], Begin);
    steps := [] + [Begin];
    AddFirstRows(EMPTY);
  }

  /** After r0, iteration c.iter has announced what comes behind c. */
  ghost predicate Announced(prog: Program, r0: Run, r: Run, c: Stage)
    requires Follows(prog, r)
  {
    && |r.iters| == c.iter + 1 <= |prog| && r.touches == r0.touches && r.orders == r0.orders
    && r.iters[c.iter] == IterState(NumAt(prog[c.iter], c.index + 1), true)
    && AllBefore(prog, r, c.iter)
    && (c.index + 1 == |prog[c.iter]| ==> AllBefore(prog, r, c.iter + 1))
  }

  lemma AnnounceNext(prog: Program, before: seq<Step>, c: Stage)
    returns (steps: seq<Step>)
    requires ValidProgram(prog) && Execute(prog, before).Some? && DoneUpTo(prog, Execute(prog, before).value, c)
    ensures Execute(prog, steps).Some? && Announced(prog, Execute(prog, before).value, Execute(prog, steps).value, c)
  {
    OneMoreStep(prog, before, Announce(c.iter));
    steps := before + [Announce(c.iter)];
    forall i: nat | i < c.iter ensures DoneAt(prog, Execute(prog, steps).value, i) {
      assert DoneAt(prog, Execute(prog, before).value, i);
    }
  }

  lemma BegunUpTo(prog: Program, r: Run, r': Run, i: nat)
    requires Follows(prog, r) && Follows(prog, r') && i == |r.iters| < |prog|
    requires AllBefore(prog, r, i)
    requires IterationAdded(r.orders, r'.orders) && r'.iters == r.iters + [IterState(0, false)]
    ensures DoneUpTo(prog, r', Stage(i, 0))
  {
    assert RowIsUsable(prog[i]);
    forall m: nat | m < i ensures DoneAt(prog, r', m) {
      assert DoneAt(prog, r, m) && Rows(r')[m] == Rows(r')[..i][m];
    }
  }

  lemma MayBegin(prog: Program, r: Run, i: nat)
    requires Follows(prog, r) && i == |r.iters| < |prog|
    requires AllBefore(prog, r, i)
    ensures CanDo(prog, r, Begin)
  {
    if i > 0 {
      assert DoneAt(prog, r, i - 1) && RowFollows(prog, r, i - 1);
    }
  }

  lemma BeginNext(prog: Program, before: seq<Step>, i: nat)
    requires ValidProgram(prog) && Execute(prog, before).Some? && i < |prog|
    requires |Execute(prog, before).value.iters| == i
    requires AllBefore(prog, Execute(prog, before).value, i)
    ensures Execute(prog, before + [Begin]).Some? && DoneUpTo(prog, Execute(prog, before + [Begin]).value, Stage(i, 0))
    ensures Execute(prog, before + [Begin]).value.touches == Execute(prog, before).value.touches
  {
    var r := Execute(prog, before).value;
    MayBegin(prog, r, i);
    OneMoreStep(prog, before, Begin);
    AddFirstRows(r.orders);
    StepKeepsProgress(prog, r, Begin);
    BegunUpTo(prog, r, Do(prog, r, Begin), i);
  }

  lemma EnteredUpTo(prog: Program, r: Run, r': Run, c: Stage)
    requires Follows(prog, r) && Follows(prog, r') && HasStage(prog, c) && c.index > 0
    requires |r.iters| == c.iter + 1 && |Rows(r)[c.iter].frames| == c.index
    requires AllBefore(prog, r, c.iter)
    requires exists s :: StageAdded(r.orders, r'.orders, c.iter, prog[c.iter][c.index].num, prog[c.iter][c.index].waits, s)
    requires r'.iters == r.iters[c.iter := IterState(prog[c.iter][c.index].num, false)]
    ensures DoneUpTo(prog, r', c)
  {
    forall m: nat | m < c.iter ensures DoneAt(prog, r', m) {
      assert DoneAt(prog, r, m);
    }
  }

  lemma MayEnterNext(prog: Program, r: Run, c: Stage)
    requires Follows(prog, r) && HasStage(prog, c) && c.index > 0
    requires |r.iters| == c.iter + 1 && |Rows(r)[c.iter].frames| == c.index && r.iters[c.iter].announced
    requires AllBefore(prog, r, c.iter)
    ensures CanDo(prog, r, Enter(c.iter))
  {
    assert RowIsUsable(prog[c.iter]);
    assert c.iter > 0 ==> DoneAt(prog, r, c.iter - 1);
  }

  lemma EnterNext(prog: Program, before: seq<Step>, c: Stage)
    requires ValidProgram(prog) && Execute(prog, before).Some? && HasStage(prog, c) && c.index > 0
    requires var r := Execute(prog, before).value;
             && |r.iters| == c.iter + 1 && |Rows(r)[c.iter].frames| == c.index && r.iters[c.iter].announced
             && AllBefore(prog, r, c.iter)
    ensures Execute(prog, before + [Enter(c.iter)]).Some?
    ensures DoneUpTo(prog, Execute(prog, before + [Enter(c.iter)]).value, c)
    ensures Execute(prog, before + [Enter(c.iter)]).value.touches == Execute(prog, before).value.touches
  {
    var r := Execute(prog, before).value;
    MayEnterNext(prog, r, c);
    OneMoreStep(prog, before, Enter(c.iter));
    AddStageRows(r.orders, c.iter, prog[c.iter][c.index].num, prog[c.iter][c.index].waits);
    StepKeepsProgress(prog, r, Enter(c.iter));
    EnteredUpTo(prog, r, Do(prog, r, Enter(c.iter)), c);
  }

  lemma SerialNextIteration(prog: Program, before: seq<Step>, i: nat)
    returns (steps: seq<Step>)
    requires ValidProgram(prog) && Execute(prog, before).Some? && 0 < i < |prog| && |prog[i - 1]| > 0
    requires DoneUpTo(prog, Execute(prog, before).value, Stage(i - 1, |prog[i - 1]| - 1))
    ensures Execute(prog, steps).Some? && DoneUpTo(prog, Execute(prog, steps).value, Stage(i, 0))
    ensures Execute(prog, steps).value.touches == Execute(prog, before).value.touches
  {
    steps := AnnounceNext(prog, before, Stage(i - 1, |prog[i - 1]| - 1));
    BeginNext(prog, steps, i);
    steps := steps + [Begin];
  }

  lemma SerialNextStage(prog: Program, before: seq<Step>, c: Stage)
    returns (steps: seq<Step>)
    requires ValidProgram(prog) && Execute(prog, before).Some? && HasStage(prog, c) && c.index > 0
    requires DoneUpTo(prog, Execute(prog, before).value, Stage(c.iter, c.index - 1))
    ensures Execute(prog, steps).Some? && DoneUpTo(prog, Execute(prog, steps).value, c)
    ensures Execute(prog, steps).value.touches == Execute(prog, before).value.touches
  {
    steps := AnnounceNext(prog, before, Stage(c.iter, c.index - 1));
    EnterNext(prog, steps, c);
    steps := steps + [Enter(c.iter)];
  }

  /** What there is to write grows by c from one stage to the next. */
  lemma WritesGrow(prog: Program, x: Stage, y: Stage, p: Stage, c: Stage)
    requires HasStage(prog, x) && HasStage(prog, y) && SerialBefore(x, y) && HasStage(prog, c)
    requires (p.iter == c.iter && p.index + 1 == c.index)
          || (p.iter + 1 == c.iter && p.index + 1 == |prog[p.iter]| && c.index == 0)
    ensures WritesUpTo(x, y, c) == WritesUpTo(x, y, p) + if c == x || c == y then [Touch(c, false, 0)] else []
  {
  }

  /** A serial run: one iteration after the other. */
  lemma {:induction false} SerialRun(prog: Program, x: Stage, y: Stage, c: Stage)
    returns (steps: seq<Step>)
    requires ValidProgram(prog) && HasStage(prog, c) && SerialBefore(x, y) && HasStage(prog, x) && HasStage(prog, y)
    ensures Execute(prog, steps).Some? && DoneUpTo(prog, Execute(prog, steps).value, c)
    ensures Execute(prog, steps).value.touches == WritesUpTo(x, y, c)
    decreases c.iter, c.index, 1
  {
    var before := SerialArrival(prog, x, y, c);
    steps := WriteIfAsked(prog, before, x, y, c);
  }

  lemma {:induction false} SerialArrival(prog: Program, x: Stage, y: Stage, c: Stage)
    returns (steps: seq<Step>)
    requires ValidProgram(prog) && HasStage(prog, c) && SerialBefore(x, y) && HasStage(prog, x) && HasStage(prog, y)
    ensures Execute(prog, steps).Some? && DoneUpTo(prog, Execute(prog, steps).value, c)
    ensures WritesUpTo(x, y, c)
         == Execute(prog, steps).value.touches + if c == x || c == y then [Touch(c, false, 0)] else []
    decreases c.iter, c.index, 0
  {
    if c == Stage(0, 0) {
      steps := SerialStart(prog);
    } else if c.index == 0 {
      assert RowIsUsable(prog[c.iter - 1]);
      var p := Stage(c.iter - 1, |prog[c.iter - 1]| - 1);
      var before := SerialRun(prog, x, y, p);
      steps := SerialNextIteration(prog, before, c.iter);
      WritesGrow(prog, x, y, p, c);
    } else {
      var before := SerialRun(prog, x, y, Stage(c.iter, c.index - 1));
      steps := SerialNextStage(prog, before, c);
      WritesGrow(prog, x, y, Stage(c.iter, c.index - 1), c);
    }
  }

  /** In every run the detector flags exactly the races of the program. */
  ghost predicate IsExactFor(prog: Program)
    requires ValidProgram(prog)
  {
    forall steps: seq<Step> | Execute(prog, steps).Some? :: ExactIn(prog, steps)
  }

  ghost predicate ExactIn(prog: Program, steps: seq<Step>)
    requires ValidProgram(prog) && Execute(prog, steps).Some?
  {
    Execute(prog, steps).value.flagged <==> exists m: nat, n: nat | m < n < |steps| :: StepsRace(prog, steps, m, n)
  }

  lemma ExactWithoutRepeatedWaits(prog: Program, steps: seq<Step>)
    requires ValidProgram(prog) && NoRepeatedWait(prog) && Execute(prog, steps).Some?
    ensures ExactIn(prog, steps)
  {
    NoRaceIsMissed(prog, steps);
    DetectorIsExact(prog, steps);
    if Execute(prog, steps).value.flagged {
      var m: nat, n: nat :| m < n < |steps| && StepsRaceAsRecorded(prog, steps, m, n);
      RacingStepsMatch(prog, steps, m, n);
    }
  }

  /** A wait on a repeated number makes the detector flag what is no race. */
  lemma FalseAlarm(prog: Program, i: nat, k: nat, j: nat)
    returns (steps: seq<Step>)
    requires ValidProgram(prog) && i < |prog| && k < |prog[i]|
    requires WaitsOnRepeatedNumber(PreOf(prog, i), prog[i], k, j)
    ensures Execute(prog, steps).Some? && !ExactIn(prog, steps)
  {
    var x, y := RepeatedWaitLosesAnEdge(prog, i, k, j);
    RecordedDagIsWellFormed(prog);
    steps := SerialRun(prog, x, y, y);
    TouchesAreUses(prog, steps);
    OrderedPairIsFlagged(prog, Execute(prog, steps).value, x, y);
    forall m: nat, n: nat | m < n < |steps| ensures !StepsRace(prog, steps, m, n) {
      if steps[m].Use? && steps[n].Use? {
        UsesInOrder(steps, m, n);
        var a := PlaceOfUse(steps, m);
        var b := PlaceOfUse(steps, n);
        OrderedPairIsNoRace(prog, x, y, a, b);
      }
    }
  }

  lemma OrderedPairIsRecordedRace(prog: Program, x: Stage, y: Stage)
    requires ProgramInOrder(prog) && HasStage(prog, x) && HasStage(prog, y) && x.iter < y.iter
    requires !Reaches(RecordedDag(prog), x, y)
    ensures IsRecordedRace(prog, Touch(x, false, 0), Touch(y, false, 0))
  {
    RecordedDagIsWellFormed(prog);
    ReachesIffByIndex(RecordedDag(prog), y, x);
  }

  /** Two writes that the program orders and the recorded dag does not are flagged. */
  lemma OrderedPairIsFlagged(prog: Program, r: Run, x: Stage, y: Stage)
    requires RunInv(prog, r) && ProgramInOrder(prog) && HasStage(prog, x) && HasStage(prog, y) && x.iter < y.iter
    requires r.touches == WritesUpTo(x, y, y) && !Reaches(RecordedDag(prog), x, y)
    ensures r.flagged
  {
    OrderedPairIsRecordedRace(prog, x, y);
    var i: nat, j: nat := 0, 1;
    assert r.touches[i] == Touch(x, false, 0) && r.touches[j] == Touch(y, false, 0);
    TouchesDecide(prog, r);
  }

  lemma OrderedPairIsNoRace(prog: Program, x: Stage, y: Stage, a: nat, b: nat)
    requires MustFollow(prog, x, y) && x.iter < y.iter && a < b < |WritesUpTo(x, y, y)|
    ensures !IsRace(prog, WritesUpTo(x, y, y)[a], WritesUpTo(x, y, y)[b])
  {
    assert a == 0 && b == 1;
  }

  /** The detector is exact over all runs of a program exactly if no stage waits
      on a number that the iteration to its left uses twice. */
  lemma DetectorIsExactIff(prog: Program)
    requires ValidProgram(prog)
    ensures IsExactFor(prog) <==> NoRepeatedWait(prog)
  {
    if NoRepeatedWait(prog) {
      forall steps: seq<Step> | Execute(prog, steps).Some? ensures ExactIn(prog, steps) {
        ExactWithoutRepeatedWaits(prog, steps);
      }
    } else {
      var i: nat, k: nat, j: nat :| i < |prog| && k < |prog[i]| && WaitsOnRepeatedNumber(PreOf(prog, i), prog[i], k, j);
      var steps := FalseAlarm(prog, i, k, j);
    }
  }
}
