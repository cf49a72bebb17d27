/** A pipeline as it runs: iterations start, advance their stage counters, wait
    for the iteration to their left, enter stages into the order lists and touch
    a word of memory, interleaved in every way the stage counters allow. */
module PipelineRun {
  import opened OrderList
  import opened PipelineDag
  import opened LeftDependency
  import opened RightFirstOrder
  import opened SerialOrder
  import opened StageOrders
  import opened AccessHistory

  /** The counter value of an iteration that has run all its stages. */
  const FINAL_USER_STAGE: int := 0x4000_0000_0000_0000 - 4

  ghost predicate RowIsUsable(row: seq<Entry>) {
    && RowInOrder(row) && row[0] == Entry(0, false)
    && forall k | 0 <= k < |row| :: row[k].num < FINAL_USER_STAGE
  }

  ghost predicate ValidProgram(prog: Program) {
    forall i: nat | i < |prog| :: InOrderAt(prog, i) && RowIsUsable(prog[i])
  }

  /** stage is the counter others read; it is set before the stage is entered. */
  datatype IterState = IterState(stage: int, announced: bool)

  datatype Touch = Touch(stage: Stage, isRead: bool, rip: int)

  datatype Run = Run(orders: Orders, iters: seq<IterState>, touches: seq<Touch>, slot: Slot, flagged: bool)

  const START := Run(EMPTY, [], [], FRESH, false)

  function Rows(r: Run): seq<StageList> { r.orders.rows }

  // ------------------------------------------------------------------ invariant

  ghost predicate FrameFollows(frames: seq<StageFrame>, pre: seq<int>, row: seq<Entry>, k: nat)
    requires k < |frames| <= |row|
  {
    frames[k].num == row[k].num && frames[k].waits == row[k].waits && frames[k].left == RecordedLeft(pre, row, k)
  }

  function NumAt(row: seq<Entry>, k: nat): int {
    if k < |row| then row[k].num else FINAL_USER_STAGE
  }

  /** An iteration has followed its row of the program so far. */
  ghost predicate RowFollows(prog: Program, r: Run, i: nat)
    requires i < |Rows(r)| == |r.iters| <= |prog|
  {
    var l, row := Rows(r)[i], prog[i];
    && 0 < |l.frames| <= |row|
    && (forall k: nat | k < |l.frames| :: FrameFollows(l.frames, PreOf(prog, i), row, k))
    && l.cursor == Cursor(PreOf(prog, i), row, |l.frames|)
    && r.iters[i].stage == NumAt(row, if r.iters[i].announced then |l.frames| else |l.frames| - 1)
  }

  /** Nothing that the stage still does can happen any more. */
  predicate Over(r: Run, y: Stage) {
    && y.iter < |r.iters| == |Rows(r)|
    && (y.index + 1 < |Rows(r)[y.iter].frames| || (y.index + 1 == |Rows(r)[y.iter].frames| && r.iters[y.iter].announced))
  }

  /** A stage is only there once the stages to its left that it follows are over. */
  ghost predicate LeftIsOver(prog: Program, r: Run, i: nat, k: nat)
    requires 0 < i < |prog|
  {
    k < |prog[i]| && Over(r, Stage(i - 1, Frontier(RecordedRow(PreOf(prog, i), prog[i]), k)))
  }

  /** All iterations have followed the program, and each of their stages the
      stages to its left. */
  ghost predicate Follows(prog: Program, r: Run) {
    && ValidProgram(prog) && NoEmptyRow(Rows(r))
    && |Rows(r)| == |r.iters| <= |prog|
    && (forall i: nat | i < |r.iters| :: RowFollows(prog, r, i))
    && (forall i: nat, k: nat | 0 < i < |r.iters| && k < |Rows(r)[i].frames| :: LeftIsOver(prog, r, i, k))
  }

  ghost predicate ProgressInv(prog: Program, r: Run) {
    Follows(prog, r) && Inv(r.orders)
  }

  function StrandOf(o: Orders, x: Stage, rip: int): MemAccess
    requires HasFrame(o, x)
  {
    MemAccess(FrameOf(o, x).downFirst.current, FrameOf(o, x).rightFirst.current, rip)
  }

  function ListsOf(o: Orders): Lists {
    Lists(o.english, o.hebrew)
  }

  predicate Framed(o: Orders, ts: seq<Touch>) {
    forall i | 0 <= i < |ts| :: HasFrame(o, ts[i].stage)
  }

  function Accesses(o: Orders, ts: seq<Touch>): (tr: seq<Access>)
    requires Framed(o, ts)
    ensures |tr| == |ts|
    ensures forall i {:trigger tr[i]} | 0 <= i < |ts| :: tr[i] == Access(StrandOf(o, ts[i].stage, ts[i].rip), ts[i].isRead)
  {
    seq(|ts|, i requires 0 <= i < |ts| => Access(StrandOf(o, ts[i].stage, ts[i].rip), ts[i].isRead))
  }

  /** The stage of touch j does not come before the stage of the earlier touch i. */
  ghost predicate TouchesInOrder(prog: Program, ts: seq<Touch>, i: nat, j: nat)
    requires i < j < |ts|
  {
    ts[j].stage != ts[i].stage ==> !Reaches(RecordedDag(prog), ts[j].stage, ts[i].stage)
  }

  ghost predicate HistoryFollows(prog: Program, r: Run) {
    && Framed(r.orders, r.touches)
    && (forall i: nat, j: nat | i < j < |r.touches| :: TouchesInOrder(prog, r.touches, i, j))
    && r.slot == Replay(ListsOf(r.orders), Accesses(r.orders, r.touches))
    && (r.flagged <==> SomeFlagged(ListsOf(r.orders), Accesses(r.orders, r.touches)))
  }

  ghost predicate RunInv(prog: Program, r: Run) {
    ProgressInv(prog, r) && HistoryFollows(prog, r)
  }

  // ---------------------------------------------------------------------- steps

  datatype Step =
    | Begin
    | Announce(i: nat)
    | Enter(i: nat)
    | Use(i: nat, isRead: bool, rip: int)

  /** The current stage of an iteration. */
  function Current(r: Run, i: nat): Stage
    requires i < |Rows(r)| && |Rows(r)[i].frames| > 0
  {
    Stage(i, |Rows(r)[i].frames| - 1)
  }

  /** A new iteration may start when the one before it has left stage 0; a
      waiting stage may be entered when the counter to its left is past it. */
  ghost predicate CanDo(prog: Program, r: Run, s: Step)
    requires Follows(prog, r)
  {
    match s
    case Begin => |Rows(r)| < |prog| && (|Rows(r)| == 0 || Over(r, Stage(|Rows(r)| - 1, 0)))
    case Announce(i) => i < |r.iters| && !r.iters[i].announced
    case Enter(i) =>
      i < |r.iters| && r.iters[i].announced && |Rows(r)[i].frames| < |prog[i]|
      && (var e := prog[i][|Rows(r)[i].frames|]; e.waits && i > 0 ==> r.iters[i - 1].stage > e.num)
    case Use(i, _, _) => i < |r.iters| && !r.iters[i].announced
  }

  ghost function Do(prog: Program, r: Run, s: Step): Run
    requires ProgressInv(prog, r) && CanDo(prog, r, s)
  {
    match s
    case Begin => r.(orders := AddFirst(r.orders), iters := r.iters + [IterState(0, false)])
    case Announce(i) =>
      assert RowFollows(prog, r, i);
      r.(iters := r.iters[i := IterState(NumAt(prog[i], |Rows(r)[i].frames|), true)])
    case Enter(i) =>
      var e := prog[i][|Rows(r)[i].frames|];
      r.(orders := AddStage(r.orders, i, e.num, e.waits), iters := r.iters[i := IterState(e.num, false)])
    case Use(i, isRead, rip) =>
      assert RowFollows(prog, r, i);
      var a := Access(StrandOf(r.orders, Current(r, i), rip), isRead);
      r.(touches := r.touches + [Touch(Current(r, i), isRead, rip)],
         slot := Apply(ListsOf(r.orders), r.slot, a),
         flagged := r.flagged || Flags(ListsOf(r.orders), r.slot, a))
  }

  // ------------------------------------------------------- every step keeps it

  lemma CounterSeparates(prog: Program, r: Run, i: nat, s: int)
    requires Follows(prog, r) && i < |r.iters| && r.iters[i].stage > s
    ensures forall j | |Rows(r)[i].frames| <= j < |prog[i]| :: prog[i][j].num > s
    ensures forall j | 0 <= j < |Rows(r)[i].frames| && Rows(r)[i].frames[j].num <= s :: Over(r, Stage(i, j))
  {
    assert RowFollows(prog, r, i) && RowIsUsable(prog[i]);
    var n := |Rows(r)[i].frames|;
    forall j | n <= j < |prog[i]| ensures prog[i][j].num > s {
      assert Nums(prog[i])[n - 1] <= Nums(prog[i])[j] && Nums(prog[i])[n] <= Nums(prog[i])[j];
    }
    forall j | 0 <= j < n && Rows(r)[i].frames[j].num <= s ensures Over(r, Stage(i, j)) {
      assert FrameFollows(Rows(r)[i].frames, PreOf(prog, i), prog[i], j);
    }
  }

  lemma LeftNumsAreThere(prog: Program, r: Run, i: nat)
    requires Follows(prog, r) && i < |r.iters|
    ensures LeftNums(r.orders, i) <= PreOf(prog, i)
    ensures i > 0 ==> |LeftNums(r.orders, i)| == |Rows(r)[i - 1].frames|
  {
    assert RowFollows(prog, r, i);
    if i > 0 {
      assert RowFollows(prog, r, i - 1);
      forall j: nat | j < |LeftNums(r.orders, i)| ensures LeftNums(r.orders, i)[j] == PreOf(prog, i)[j] {
        assert FrameFollows(Rows(r)[i - 1].frames, PreOf(prog, i - 1), prog[i - 1], j);
      }
    }
  }

  /** The scan of a satisfied wait sees all it needs: it returns what a scan of
      the complete left iteration would return. */
  lemma ScanIsComplete(prog: Program, r: Run, i: nat)
    requires Follows(prog, r) && CanDo(prog, r, Enter(i))
    requires Rows(r)[i].cursor <= |LeftNums(r.orders, i)|
    ensures var k := |Rows(r)[i].frames|;
            var e := prog[i][k];
            && 0 < k
            && ScanFor(r.orders, i, e.num, e.waits)
               == ScanResult(RecordedLeft(PreOf(prog, i), prog[i], k), Cursor(PreOf(prog, i), prog[i], k + 1))
  {
    assert RowFollows(prog, r, i);
    var k := |Rows(r)[i].frames|;
    var e := prog[i][k];
    if e.waits && i > 0 {
      LeftNumsAreThere(prog, r, i);
      CounterSeparates(prog, r, i - 1, e.num);
      ScanIgnoresLaterStages(LeftNums(r.orders, i), PreOf(prog, i), Rows(r)[i].cursor, e.num, 0);
    }
  }

  lemma OverStays(r: Run, r': Run, y: Stage)
    requires Over(r, y) && |r.iters| <= |r'.iters| == |Rows(r')|
    requires |Rows(r)[y.iter].frames| < |Rows(r')[y.iter].frames|
          || (|Rows(r)[y.iter].frames| == |Rows(r')[y.iter].frames| && (r.iters[y.iter].announced ==> r'.iters[y.iter].announced))
    ensures Over(r', y)
  {
  }

  lemma RowStays(prog: Program, r: Run, r': Run, i: nat)
    requires i < |Rows(r)| == |r.iters| <= |prog| && RowFollows(prog, r, i)
    requires |r.iters| <= |r'.iters| == |Rows(r')| <= |prog| && Rows(r')[i] == Rows(r)[i] && r'.iters[i] == r.iters[i]
    ensures RowFollows(prog, r', i)
  {
    forall k: nat | k < |Rows(r')[i].frames| ensures FrameFollows(Rows(r')[i].frames, PreOf(prog, i), prog[i], k) {
      assert FrameFollows(Rows(r)[i].frames, PreOf(prog, i), prog[i], k);
    }
  }

  lemma BeginKeepsRow(prog: Program, r: Run, r': Run, i: nat)
    requires Follows(prog, r) && |Rows(r)| < |prog| && i <= |r.iters|
    requires IterationAdded(r.orders, r'.orders) && r'.iters == r.iters + [IterState(0, false)]
    ensures |r'.iters| == |Rows(r')| <= |prog| && RowFollows(prog, r', i)
    ensures i < |r.iters| ==> Rows(r')[i] == Rows(r)[i]
  {
    var n := |r.iters|;
    if i < n {
      assert RowFollows(prog, r, i) && Rows(r')[i] == Rows(r')[..n][i];
      RowStays(prog, r, r', i);
    } else {
      assert RowIsUsable(prog[n]);
      assert FrameFollows(Rows(r')[n].frames, PreOf(prog, n), prog[n], 0);
    }
  }

  lemma BeginKeepsLeft(prog: Program, r: Run, r': Run, i: nat, k: nat)
    requires Follows(prog, r) && CanDo(prog, r, Begin)
    requires IterationAdded(r.orders, r'.orders) && r'.iters == r.iters + [IterState(0, false)]
    requires 0 < i < |r'.iters| == |Rows(r')| && k < |Rows(r')[i].frames|
    ensures LeftIsOver(prog, r', i, k)
  {
    BeginKeepsRow(prog, r, r', i);
    BeginKeepsRow(prog, r, r', i - 1);
    if i < |r.iters| {
      assert LeftIsOver(prog, r, i, k);
    }
  }

  lemma BeginFollows(prog: Program, r: Run, r': Run)
    requires Follows(prog, r) && CanDo(prog, r, Begin)
    requires IterationAdded(r.orders, r'.orders) && r'.iters == r.iters + [IterState(0, false)]
    ensures Follows(prog, r')
  {
    forall i: nat | i < |r'.iters| ensures RowFollows(prog, r', i) && |Rows(r')[i].frames| > 0 {
      BeginKeepsRow(prog, r, r', i);
    }
    forall i: nat, k: nat | 0 < i < |r'.iters| && k < |Rows(r')[i].frames| ensures LeftIsOver(prog, r', i, k) {
      BeginKeepsLeft(prog, r, r', i, k);
    }
  }

  lemma SameRowsFollow(prog: Program, r: Run, r': Run)
    requires Follows(prog, r) && r'.orders == r.orders && |r'.iters| == |r.iters|
    requires forall i | 0 <= i < |r.iters| :: r'.iters[i] == r.iters[i]
               || r'.iters[i] == IterState(NumAt(prog[i], |Rows(r)[i].frames|), true)
    ensures Follows(prog, r')
  {
    forall m: nat | m < |r'.iters| ensures RowFollows(prog, r', m) {
      assert RowFollows(prog, r, m);
      forall k: nat | k < |Rows(r')[m].frames| ensures FrameFollows(Rows(r')[m].frames, PreOf(prog, m), prog[m], k) {
        assert FrameFollows(Rows(r)[m].frames, PreOf(prog, m), prog[m], k);
      }
    }
    forall m: nat, k: nat | 0 < m < |r'.iters| && k < |Rows(r')[m].frames|
      ensures RowFollows(prog, r', m) && LeftIsOver(prog, r', m, k)
    {
      assert RowFollows(prog, r', m) && LeftIsOver(prog, r, m, k);
    }
  }

  lemma WaitedStageIsOver(prog: Program, r: Run, i: nat, left: nat)
    requires Follows(prog, r) && CanDo(prog, r, Enter(i)) && i > 0 && left < |Rows(r)[i - 1].frames|
    requires left < |PreOf(prog, i)| && prog[i][|Rows(r)[i].frames|].waits
    requires PreOf(prog, i)[left] <= prog[i][|Rows(r)[i].frames|].num
    ensures Over(r, Stage(i - 1, left))
  {
    CounterSeparates(prog, r, i - 1, prog[i][|Rows(r)[i].frames|].num);
    assert RowFollows(prog, r, i - 1);
    assert FrameFollows(Rows(r)[i - 1].frames, PreOf(prog, i - 1), prog[i - 1], left);
  }

  /** The stage that a wait depends on is over when the wait is satisfied. */
  lemma EnteredLeftIsOver(prog: Program, r: Run, i: nat)
    requires Follows(prog, r) && CanDo(prog, r, Enter(i)) && i > 0
    requires RecordedLeft(PreOf(prog, i), prog[i], |Rows(r)[i].frames|) < |Rows(r)[i - 1].frames|
    ensures LeftIsOver(prog, r, i, |Rows(r)[i].frames|)
  {
    assert RowFollows(prog, r, i);
    var k := |Rows(r)[i].frames|;
    var row := RecordedRow(PreOf(prog, i), prog[i]);
    assert row[k] == RecordedLeft(PreOf(prog, i), prog[i], k);
    if row[k] == 0 {
      assert LeftIsOver(prog, r, i, k - 1);
    } else {
      RecordedLeftIsReached(prog, i, k);
      WaitedStageIsOver(prog, r, i, row[k]);
    }
  }

  ghost predicate Entered(prog: Program, r: Run, r': Run, i: nat) {
    && Follows(prog, r) && CanDo(prog, r, Enter(i))
    && var k := |Rows(r)[i].frames|;
       var e := prog[i][k];
       && k > 0
       && StageAdded(r.orders, r'.orders, i, e.num, e.waits,
                     ScanResult(RecordedLeft(PreOf(prog, i), prog[i], k), Cursor(PreOf(prog, i), prog[i], k + 1)))
       && r'.iters == r.iters[i := IterState(e.num, false)]
  }

  lemma EnterKeepsRow(prog: Program, r: Run, r': Run, i: nat, m: nat)
    requires Entered(prog, r, r', i) && m < |r.iters|
    ensures RowFollows(prog, r', m)
  {
    assert RowFollows(prog, r, m);
    if m == i {
      var k := |Rows(r)[i].frames|;
      forall j: nat | j < |Rows(r')[i].frames| ensures FrameFollows(Rows(r')[i].frames, PreOf(prog, i), prog[i], j) {
        if j < k {
          assert FrameFollows(Rows(r)[i].frames, PreOf(prog, i), prog[i], j);
          assert Rows(r')[i].frames[j] == Rows(r')[i].frames[..k][j];
        }
      }
    } else {
      RowStays(prog, r, r', m);
    }
  }

  lemma EnterKeepsLeft(prog: Program, r: Run, r': Run, i: nat, m: nat, j: nat)
    requires Entered(prog, r, r', i) && (i > 0 ==> LeftIsOver(prog, r, i, |Rows(r)[i].frames|))
    requires 0 < m < |r.iters| && j < |Rows(r')[m].frames|
    ensures m < |r'.iters| && LeftIsOver(prog, r', m, j)
  {
    EnterKeepsRow(prog, r, r', i, m);
    assert LeftIsOver(prog, r, m, j);
    OverStays(r, r', Stage(m - 1, Frontier(RecordedRow(PreOf(prog, m), prog[m]), j)));
  }

  lemma EnterFollows(prog: Program, r: Run, r': Run, i: nat)
    requires Entered(prog, r, r', i)
    requires i > 0 ==> LeftIsOver(prog, r, i, |Rows(r)[i].frames|)
    ensures Follows(prog, r')
  {
    forall m: nat | m < |r'.iters| ensures RowFollows(prog, r', m) {
      EnterKeepsRow(prog, r, r', i, m);
    }
    forall m: nat, j: nat | 0 < m < |r'.iters| && j < |Rows(r')[m].frames| ensures LeftIsOver(prog, r', m, j) {
      EnterKeepsLeft(prog, r, r', i, m, j);
    }
  }

  lemma EnterKeepsProgress(prog: Program, r: Run, i: nat)
    requires ProgressInv(prog, r) && CanDo(prog, r, Enter(i))
    ensures ProgressInv(prog, Do(prog, r, Enter(i)))
  {
    var e := prog[i][|Rows(r)[i].frames|];
    AddStageKeepsInv(r.orders, i, e.num, e.waits);
    AddStageRows(r.orders, i, e.num, e.waits);
    CursorInBounds(r.orders, i);
    ScanInBounds(r.orders, i, e.num, e.waits);
    ScanIsComplete(prog, r, i);
    if i > 0 {
      EnteredLeftIsOver(prog, r, i);
    }
    EnterFollows(prog, r, Do(prog, r, Enter(i)), i);
  }

  lemma StepKeepsProgress(prog: Program, r: Run, s: Step)
    requires ProgressInv(prog, r) && CanDo(prog, r, s)
    ensures ProgressInv(prog, Do(prog, r, s))
  {
    match s
    case Begin =>
      AddFirstKeepsInv(r.orders);
      AddFirstRows(r.orders);
      BeginFollows(prog, r, Do(prog, r, s));
    case Enter(i) => EnterKeepsProgress(prog, r, i);
    case Announce(i) => SameRowsFollow(prog, r, Do(prog, r, s));
    case Use(i, isRead, rip) => SameRowsFollow(prog, r, Do(prog, r, s));
  }

  // ----------------------------------------------------- what the lists record

  /** The stages entered so far are a beginning of the dag of the program. */
  lemma DagFollowsProgram(prog: Program, r: Run)
    requires ProgressInv(prog, r)
    ensures ProgramInOrder(prog) && WellFormed(RecordedDag(prog)) && WellFormed(StageDag(r.orders))
    ensures Grows(StageDag(r.orders), RecordedDag(prog))
    ensures forall x :: Has(StageDag(r.orders), x) <==> HasFrame(r.orders, x)
  {
    RecordedDagIsWellFormed(prog);
    StageDagIsWellFormed(r.orders);
    var d, d' := StageDag(r.orders), RecordedDag(prog);
    forall i | 0 <= i < |d| ensures d[i] <= d'[i] {
      assert RowFollows(prog, r, i);
      forall k: nat | k < |d[i]| ensures d[i][k] == d'[i][k] {
        assert FrameFollows(Rows(r)[i].frames, PreOf(prog, i), prog[i], k);
      }
    }
  }

  /** The orders of two stages in the two lists follow from the program alone,
      whatever the interleaving was. */
  lemma ListsFollowProgram(prog: Program, r: Run, x: Stage, y: Stage)
    requires ProgressInv(prog, r) && HasFrame(r.orders, x) && HasFrame(r.orders, y)
    ensures Has(RecordedDag(prog), x) && Has(RecordedDag(prog), y)
    ensures Precedes(r.orders.hebrew, FrameOf(r.orders, x).rightFirst.current, FrameOf(r.orders, y).rightFirst.current)
       <==> x != y && RightFirstBefore(RecordedDag(prog), x, y)
    ensures Precedes(r.orders.english, FrameOf(r.orders, x).downFirst.current, FrameOf(r.orders, y).downFirst.current)
       <==> SerialBefore(x, y)
    ensures BeforeInBoth(r.orders, x, y) <==> x != y && Reaches(RecordedDag(prog), x, y)
    ensures OrdersDisagree(r.orders, x, y) <==> !Reaches(RecordedDag(prog), x, y) && !Reaches(RecordedDag(prog), y, x)
  {
    DagFollowsProgram(prog, r);
    ListOrders(r.orders, x, y);
    SameOrderIfGrown(StageDag(r.orders), RecordedDag(prog), x, y);
    TwoOrdersDecideReachability(r.orders, x, y);
    ReachabilityIsSettled(StageDag(r.orders), RecordedDag(prog), x, y);
    ReachabilityIsSettled(StageDag(r.orders), RecordedDag(prog), y, x);
  }

  // ------------------------------------------------------------ order of touches

  ghost predicate LeftOverIn(d: Lefts, r: Run, y: Stage) {
    Has(d, y) && y.iter > 0 && Over(r, Stage(y.iter - 1, Frontier(d[y.iter], y.index)))
  }

  lemma {:induction false} LastReachingIsOver(d: Lefts, r: Run, a: nat, y: Stage)
    requires forall z | HasFrame(r.orders, z) && z.iter > 0 :: LeftOverIn(d, r, z)
    requires HasFrame(r.orders, y) && Has(d, y) && a < y.iter
    ensures WellFormed(d) ==> Over(r, Stage(a, LastReaching(d, a, y)))
    decreases y.iter
  {
    assert LeftOverIn(d, r, y);
    var u := Stage(y.iter - 1, Frontier(d[y.iter], y.index));
    if WellFormed(d) {
      LastReachingInRange(d, a, y);
      if a < u.iter {
        LastReachingIsOver(d, r, a, u);
      }
    }
  }

  /** Whatever comes before a stage that has been entered is over. */
  lemma ReachedMeansOver(prog: Program, r: Run, x: Stage, y: Stage)
    requires Follows(prog, r) && HasFrame(r.orders, x) && HasFrame(r.orders, y)
    requires x != y && Reaches(RecordedDag(prog), x, y)
    ensures Over(r, x)
  {
    RecordedDagIsWellFormed(prog);
    assert RowFollows(prog, r, x.iter) && RowFollows(prog, r, y.iter);
    ReachesIffByIndex(RecordedDag(prog), x, y);
    if x.iter < y.iter {
      forall z | HasFrame(r.orders, z) && z.iter > 0 ensures LeftOverIn(RecordedDag(prog), r, z) {
        assert LeftIsOver(prog, r, z.iter, z.index);
      }
      LastReachingIsOver(RecordedDag(prog), r, x.iter, y);
    }
  }

  // ---------------------------------------------------------------- the history

  lemma StrandsAreAllocated(o: Orders, ts: seq<Touch>)
    requires Inv(o) && Framed(o, ts)
    ensures forall i | 0 <= i < |ts| :: Allocates(ListsOf(o), Accesses(o, ts)[i].acc)
  {
    InvBounds(o);
    forall i | 0 <= i < |ts| ensures Allocates(ListsOf(o), Accesses(o, ts)[i].acc) {
      assert HasFrame(o, ts[i].stage);
    }
  }

  /** Adding stages changes neither the history nor what was flagged. */
  lemma HistoryStays(prog: Program, r: Run, r': Run)
    requires HistoryFollows(prog, r) && r' == r.(orders := r'.orders, iters := r'.iters)
    requires KeepsFrames(r.orders, r'.orders) && ListsExtend(ListsOf(r.orders), ListsOf(r'.orders))
    requires forall i | 0 <= i < |r.touches| :: Allocates(ListsOf(r.orders), Accesses(r.orders, r.touches)[i].acc)
    ensures HistoryFollows(prog, r')
  {
    forall i | 0 <= i < |r.touches|
      ensures HasFrame(r'.orders, r.touches[i].stage)
           && FrameOf(r'.orders, r.touches[i].stage) == FrameOf(r.orders, r.touches[i].stage)
    {
      assert HasFrame(r.orders, r.touches[i].stage);
    }
    assert Accesses(r'.orders, r.touches) == Accesses(r.orders, r.touches);
    NothingChangesLater(ListsOf(r.orders), ListsOf(r'.orders), Accesses(r.orders, r.touches));
  }

  lemma UseKeepsOrder(prog: Program, r: Run, i: nat, t: Touch, a: nat, b: nat)
    requires Follows(prog, r) && HistoryFollows(prog, r) && i < |r.iters| && !r.iters[i].announced
    requires t.stage == Current(r, i) && a < b < |r.touches| + 1
    ensures TouchesInOrder(prog, r.touches + [t], a, b)
  {
    var c := Current(r, i);
    assert HasFrame(r.orders, c) && !Over(r, c);
    if b < |r.touches| {
      assert TouchesInOrder(prog, r.touches, a, b);
    } else if r.touches[a].stage != c && Reaches(RecordedDag(prog), c, r.touches[a].stage) {
      ReachedMeansOver(prog, r, c, r.touches[a].stage);
    }
  }

  lemma UseKeepsHistory(prog: Program, r: Run, r': Run, i: nat, t: Touch)
    requires Follows(prog, r) && HistoryFollows(prog, r) && i < |r.iters| && !r.iters[i].announced
    requires t.stage == Current(r, i) && HasFrame(r.orders, t.stage)
    requires var a := Access(StrandOf(r.orders, t.stage, t.rip), t.isRead);
             r' == r.(touches := r.touches + [t], slot := Apply(ListsOf(r.orders), r.slot, a),
                      flagged := r.flagged || Flags(ListsOf(r.orders), r.slot, a))
    ensures HistoryFollows(prog, r')
  {
    forall a: nat, b: nat | a < b < |r'.touches| ensures TouchesInOrder(prog, r'.touches, a, b) {
      UseKeepsOrder(prog, r, i, t, a, b);
    }
    var acc := Access(StrandOf(r.orders, t.stage, t.rip), t.isRead);
    assert Accesses(r.orders, r'.touches) == Accesses(r.orders, r.touches) + [acc];
    OneMoreAccess(ListsOf(r.orders), Accesses(r.orders, r.touches), acc);
  }

  lemma ListsStayInOrder(prog: Program, r: Run, o': Orders)
    requires RunInv(prog, r) && Inv(o')
    requires Extends(r.orders.hebrew, o'.hebrew) && Extends(r.orders.english, o'.english)
    ensures ListsExtend(ListsOf(r.orders), ListsOf(o'))
    ensures forall i | 0 <= i < |r.touches| :: Allocates(ListsOf(r.orders), Accesses(r.orders, r.touches)[i].acc)
  {
    InvBounds(r.orders);
    InvBounds(o');
    StrandsAreAllocated(r.orders, r.touches);
  }

  lemma StepKeepsInv(prog: Program, r: Run, s: Step)
    requires RunInv(prog, r) && CanDo(prog, r, s)
    ensures RunInv(prog, Do(prog, r, s))
  {
    StepKeepsProgress(prog, r, s);
    var r' := Do(prog, r, s);
    match s
    case Begin =>
      AddFirstKeepsInv(r.orders);
      AddFirstRows(r.orders);
      ListsStayInOrder(prog, r, r'.orders);
      HistoryStays(prog, r, r');
    case Announce(i) =>
    case Enter(i) =>
      var e := prog[i][|Rows(r)[i].frames|];
      AddStageKeepsInv(r.orders, i, e.num, e.waits);
      AddStageRows(r.orders, i, e.num, e.waits);
      ListsStayInOrder(prog, r, r'.orders);
      HistoryStays(prog, r, r');
    case Use(i, isRead, rip) =>
      assert RowFollows(prog, r, i);
      UseKeepsHistory(prog, r, r', i, Touch(Current(r, i), isRead, rip));
  }

  lemma StartHasInv(prog: Program)
    requires ValidProgram(prog)
    ensures RunInv(prog, START)
  {
    EmptyHasInv();
  }

  // -------------------------------------------------------------------- progress

  ghost predicate DoneAt(prog: Program, r: Run, i: nat)
    requires Follows(prog, r)
  {
    i < |r.iters| && r.iters[i].announced && |Rows(r)[i].frames| == |prog[i]| && r.iters[i].stage == FINAL_USER_STAGE
  }

  ghost predicate AllDone(prog: Program, r: Run)
    requires Follows(prog, r)
  {
    forall i: nat | i < |prog| :: DoneAt(prog, r, i)
  }

  /** The oldest unfinished iteration can always go on, or start. */
  lemma OldestCanGoOn(prog: Program, r: Run, i: nat)
    returns (s: Step)
    requires Follows(prog, r) && i < |prog| && !DoneAt(prog, r, i)
    requires forall m: nat | m < i :: DoneAt(prog, r, m)
    ensures CanDo(prog, r, s) && !s.Use?
  {
    assert i > 0 ==> DoneAt(prog, r, i - 1);
    if i >= |r.iters| {
      s := Begin;
      if i > 0 {
        assert RowFollows(prog, r, i - 1);
      }
    } else {
      assert RowFollows(prog, r, i) && RowIsUsable(prog[i]);
      s := if r.iters[i].announced then Enter(i) else Announce(i);
    }
  }

  /** A pipeline never gets stuck on its waits. */
  lemma NeverStuck(prog: Program, r: Run)
    requires Follows(prog, r) && !AllDone(prog, r)
    ensures exists s: Step :: CanDo(prog, r, s) && !s.Use?
  {
    var i: nat :| i < |prog| && !DoneAt(prog, r, i);
    var m: nat := 0;
    while DoneAt(prog, r, m)
      invariant m <= i && forall k: nat | k < m :: DoneAt(prog, r, k)
      decreases i - m
    {
      m := m + 1;
    }
    var s := OldestCanGoOn(prog, r, m);
  }

  /** Frames and announcements before and after a step of the detector. */
  predicate StepShape(r: Run, d: Step, r': Run) {
    && |r.iters| == |Rows(r)| && |r'.iters| == |Rows(r')| == |r.iters| + (if d.Begin? then 1 else 0)
    && (forall m: nat | m < |r.iters| && (d.Begin? || m != d.i) ::
          |Rows(r')[m].frames| == |Rows(r)[m].frames| && r'.iters[m] == r.iters[m])
    && (d.Begin? ==> |Rows(r')[|r.iters|].frames| == 1 && !r'.iters[|r.iters|].announced)
    && (!d.Begin? ==>
          && d.i < |r.iters| && r'.iters[d.i].announced == d.Announce?
          && |Rows(r')[d.i].frames| == |Rows(r)[d.i].frames| + (if d.Enter? then 1 else 0))
  }

  lemma BegunShape(r: Run, r': Run)
    requires |r.iters| == |Rows(r)| && IterationAdded(r.orders, r'.orders) && r'.iters == r.iters + [IterState(0, false)]
    ensures StepShape(r, Begin, r')
  {
    assert forall m: nat | m < |Rows(r)| :: Rows(r')[m] == Rows(r')[..|Rows(r)|][m];
  }

  lemma BeginShape(prog: Program, r: Run)
    requires ProgressInv(prog, r) && CanDo(prog, r, Begin)
    ensures StepShape(r, Begin, Do(prog, r, Begin))
  {
    AddFirstRows(r.orders);
    BegunShape(r, Do(prog, r, Begin));
  }

  lemma AddedShape(r: Run, r': Run, i: nat, num: int, waits: bool, sc: ScanResult)
    requires |r.iters| == |Rows(r)| && StageAdded(r.orders, r'.orders, i, num, waits, sc)
    requires r'.iters == r.iters[i := IterState(num, false)]
    ensures StepShape(r, Enter(i), r')
  {
  }

  lemma EnterShape(prog: Program, r: Run, i: nat)
    requires ProgressInv(prog, r) && CanDo(prog, r, Enter(i))
    ensures StepShape(r, Enter(i), Do(prog, r, Enter(i)))
  {
    var e := prog[i][|Rows(r)[i].frames|];
    AddStageRows(r.orders, i, e.num, e.waits);
    AddedShape(r, Do(prog, r, Enter(i)), i, e.num, e.waits, ScanFor(r.orders, i, e.num, e.waits));
  }

  lemma OtherShapes(prog: Program, r: Run, s: Step)
    requires ProgressInv(prog, r) && CanDo(prog, r, s) && (s.Announce? || s.Use?)
    ensures StepShape(r, s, Do(prog, r, s))
  {
  }

  lemma StepShapes(prog: Program, r: Run, s: Step)
    requires ProgressInv(prog, r) && CanDo(prog, r, s)
    ensures StepShape(r, s, Do(prog, r, s))
  {
    match s
    case Begin => BeginShape(prog, r);
    case Enter(i) => EnterShape(prog, r, i);
    case _ => OtherShapes(prog, r, s);
  }
}
