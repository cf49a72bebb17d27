/** Finding the left dependency of a waiting stage. The scan resumes where the
    previous scan of the same iteration stopped, so an edge that an earlier
    wait of the iteration already implies is never recorded again. */
module LeftDependency {
  import opened PipelineDag

  /** One stage as the program announces it: its number and whether it waits. */
  datatype Entry = Entry(num: int, waits: bool)

  /** The rows of a program, one per iteration. */
  type Program = seq<seq<Entry>>

  function Nums(row: seq<Entry>): (ns: seq<int>)
    ensures |ns| == |row| && forall k | 0 <= k < |row| :: ns[k] == row[k].num
  {
    seq(|row|, k requires 0 <= k < |row| => row[k].num)
  }

  ghost predicate NonDecreasing(ns: seq<int>) {
    forall j, k | 0 <= j < k < |ns| :: ns[j] <= ns[k]
  }

  // ------------------------------------------------------------------ one scan

  datatype ScanResult = ScanResult(left: nat, cursor: nat)

  /** The scan of the numbers to the left for a wait on number s. `below` is the
      last index passed over by this scan, 0 if there is none. */
  function Scan(pre: seq<int>, cursor: nat, s: int, below: nat): ScanResult
    decreases |pre| - cursor
  {
    if cursor >= |pre| then ScanResult(below, cursor)
    else if pre[cursor] == s then ScanResult(cursor, cursor + 1)
    else if pre[cursor] < s then Scan(pre, cursor + 1, s, cursor)
    else ScanResult(below, cursor)
  }

  function ScanSteps(pre: seq<int>, cursor: nat, s: int): nat
    decreases |pre| - cursor
  {
    if cursor >= |pre| then 0
    else if pre[cursor] < s then 1 + ScanSteps(pre, cursor + 1, s)
    else 1
  }

  /** A scan either stays where it is or consumes up to the index it returns. */
  lemma {:induction false} ScanMovesForward(pre: seq<int>, cursor: nat, s: int, below: nat)
    requires below < cursor <= |pre|
    ensures var r := Scan(pre, cursor, s, below);
            && cursor <= r.cursor <= |pre|
            && r.left == (if r.cursor > cursor then r.cursor - 1 else below)
    decreases |pre| - cursor
  {
    if cursor < |pre| && pre[cursor] < s {
      ScanMovesForward(pre, cursor + 1, s, cursor);
    }
  }

  lemma {:induction false} ScanShape(pre: seq<int>, cursor: nat, s: int, below: nat)
    requires NonDecreasing(pre) && below < cursor <= |pre|
    ensures var r := Scan(pre, cursor, s, below);
            && cursor <= r.cursor <= |pre|
            && r.left == (if r.cursor > cursor then r.cursor - 1 else below)
            && (forall j | cursor <= j < r.cursor :: pre[j] <= s)
            && (r.cursor < |pre| ==> pre[r.cursor] >= s)
            && (r.cursor < |pre| && pre[r.cursor] == s ==> r.cursor > cursor && pre[r.cursor - 1] == s)
            && ScanSteps(pre, cursor, s) <= r.cursor - cursor + 1
    decreases |pre| - cursor
  {
    if cursor < |pre| && pre[cursor] < s {
      ScanShape(pre, cursor + 1, s, cursor);
    }
  }

  /** g is the greatest index not yet consumed whose number is at most s, or 0
      if there is no such index. */
  ghost predicate IsGreatestUnconsumed(pre: seq<int>, cursor: nat, s: int, g: nat) {
    if exists j :: cursor <= j < |pre| && pre[j] <= s
    then cursor <= g < |pre| && pre[g] <= s && forall j | g < j < |pre| :: pre[j] > s
    else g == 0
  }

  /** The scan returns the greatest unconsumed left index numbered at most s
      exactly if s does not occur twice among the unconsumed left numbers:
      on two equal numbers it stops at the first. */
  lemma ScanFindsGreatestIff(pre: seq<int>, cursor: nat, s: int)
    requires NonDecreasing(pre) && 1 <= cursor <= |pre|
    ensures IsGreatestUnconsumed(pre, cursor, s, Scan(pre, cursor, s, 0).left)
       <==> !exists j :: cursor <= j < |pre| - 1 && pre[j] == s && pre[j + 1] == s
  {
    ScanShape(pre, cursor, s, 0);
    var r := Scan(pre, cursor, s, 0);
    if r.cursor < |pre| && pre[r.cursor] == s {
      assert pre[r.cursor - 1] == s && pre[r.cursor - 1 + 1] == s;
    } else {
      if j :| cursor <= j < |pre| - 1 && pre[j] == s && pre[j + 1] == s {
        if j + 1 >= r.cursor {
          assert false;
        }
        ScanMeetsEqual(pre, cursor, s, 0, j);
      }
    }
  }

  /** The scan never goes past a number equal to s. */
  lemma {:induction false} ScanMeetsEqual(pre: seq<int>, cursor: nat, s: int, below: nat, j: nat)
    requires NonDecreasing(pre) && below < cursor <= j < |pre| && pre[j] == s
    ensures Scan(pre, cursor, s, below).cursor <= j + 1
    decreases |pre| - cursor
  {
    if pre[cursor] < s {
      ScanMeetsEqual(pre, cursor + 1, s, cursor, j);
    }
  }

  /** Left stages numbered above s do not matter, so a scan of the list as it
      stands is as good as a scan of the complete list once everything up to s
      is there. */
  lemma {:induction false} ScanIgnoresLaterStages(pre: seq<int>, pre': seq<int>, cursor: nat, s: int, below: nat)
    requires pre <= pre' && cursor <= |pre|
    requires forall j | |pre| <= j < |pre'| :: pre'[j] > s
    ensures Scan(pre', cursor, s, below) == Scan(pre, cursor, s, below)
    decreases |pre| - cursor
  {
    if cursor < |pre| && pre[cursor] < s {
      ScanIgnoresLaterStages(pre, pre', cursor + 1, s, cursor);
    }
  }

  // --------------------------------------------------- the scans of one iteration

  /** The cursor after the first k stages of an iteration (stage 0 never waits). */
  function Cursor(pre: seq<int>, row: seq<Entry>, k: nat): nat
    requires 1 <= k <= |row|
  {
    if k == 1 then 1
    else if row[k - 1].waits then Scan(pre, Cursor(pre, row, k - 1), row[k - 1].num, 0).cursor
    else Cursor(pre, row, k - 1)
  }

  function RecordedLeft(pre: seq<int>, row: seq<Entry>, k: nat): nat
    requires k < |row|
  {
    if k > 0 && row[k].waits then Scan(pre, Cursor(pre, row, k), row[k].num, 0).left else 0
  }

  function RecordedRow(pre: seq<int>, row: seq<Entry>): (r: seq<nat>)
    ensures |r| == |row| && forall k {:trigger r[k]} | 0 <= k < |row| :: r[k] == RecordedLeft(pre, row, k)
  {
    seq(|row|, k requires 0 <= k < |row| => RecordedLeft(pre, row, k))
  }

  function ScanTotal(pre: seq<int>, row: seq<Entry>, k: nat): nat
    requires 1 <= k <= |row|
  {
    if k == 1 then 0
    else ScanTotal(pre, row, k - 1)
         + if row[k - 1].waits then ScanSteps(pre, Cursor(pre, row, k - 1), row[k - 1].num) else 0
  }

  function Waits(row: seq<Entry>, k: nat): nat
    requires 1 <= k <= |row|
  {
    if k == 1 then 0 else Waits(row, k - 1) + if row[k - 1].waits then 1 else 0
  }

  ghost predicate RowInOrder(row: seq<Entry>) {
    |row| > 0 && NonDecreasing(Nums(row))
  }

  /** All scans of an iteration together look at each left stage at most once,
      plus once more per wait. */
  lemma {:induction false} ScansAreLinear(pre: seq<int>, row: seq<Entry>, k: nat)
    requires NonDecreasing(pre) && |pre| > 0 && 1 <= k <= |row|
    ensures 1 <= Cursor(pre, row, k) <= |pre|
    ensures ScanTotal(pre, row, k) <= Cursor(pre, row, k) - 1 + Waits(row, k)
    ensures ScanTotal(pre, row, k) <= |pre| - 1 + Waits(row, k)
  {
    if k > 1 {
      ScansAreLinear(pre, row, k - 1);
      if row[k - 1].waits {
        ScanShape(pre, Cursor(pre, row, k - 1), row[k - 1].num, 0);
      }
    }
  }

  /** The cursor is always one past the frontier of the recorded edges. */
  lemma {:induction false} FrontierIsCursor(pre: seq<int>, row: seq<Entry>, k: nat)
    requires NonDecreasing(pre) && |pre| > 0 && k < |row|
    ensures Frontier(RecordedRow(pre, row), k) == Cursor(pre, row, k + 1) - 1
  {
    ScansAreLinear(pre, row, k + 1);
    if k > 0 {
      FrontierIsCursor(pre, row, k - 1);
      ScansAreLinear(pre, row, k);
      if row[k].waits {
        ScanShape(pre, Cursor(pre, row, k), row[k].num, 0);
      }
    }
  }

  ghost predicate GoesForward(r: seq<nat>, k: nat)
    requires k < |r| - 1
  {
    r[k + 1] != 0 ==> Frontier(r, k) < r[k + 1]
  }

  /** Recorded edges never go back: each one is past all earlier ones. */
  lemma RecordedRowIsWellFormed(pre: seq<int>, row: seq<Entry>)
    requires NonDecreasing(pre) && |pre| > 0 && |row| > 0
    ensures WellFormedRow(RecordedRow(pre, row), |pre|)
    ensures forall k | 0 <= k < |row| - 1 :: GoesForward(RecordedRow(pre, row), k)
  {
    var r := RecordedRow(pre, row);
    forall k: nat | k < |row|
      ensures r[k] < |pre|
      ensures k > 0 ==> GoesForward(r, k - 1) && NotBehind(r, k)
    {
      if k > 0 {
        ScansAreLinear(pre, row, k);
        FrontierIsCursor(pre, row, k - 1);
        if row[k].waits {
          ScanShape(pre, Cursor(pre, row, k), row[k].num, 0);
        }
      }
    }
    forall k: nat | k < |row| - 1 ensures GoesForward(r, k) {
      assert k + 1 > 0 ==> GoesForward(r, k + 1 - 1);
    }
  }

  // ---------------------------------------------------------- every wait edge

  ghost predicate InOrderAt(prog: Program, i: nat)
    requires i < |prog|
  {
    RowInOrder(prog[i])
  }

  ghost predicate ProgramInOrder(prog: Program) {
    forall i: nat | i < |prog| :: InOrderAt(prog, i)
  }

  /** The numbers to the left of iteration i; the first iteration has an empty
      neighbour that only consists of stage 0. */
  function PreOf(prog: Program, i: nat): seq<int>
    requires i <= |prog|
  {
    if i == 0 then [0] else Nums(prog[i - 1])
  }

  predicate HasStage(prog: Program, x: Stage) {
    x.iter < |prog| && x.index < |prog[x.iter]|
  }

  /** What the waits of the program mean: a waiting stage follows every stage
      of the iteration to its left numbered at most like itself. */
  predicate WaitEdge(prog: Program, x: Stage, y: Stage) {
    && HasStage(prog, x) && HasStage(prog, y)
    && (|| (x.iter == y.iter && x.index + 1 == y.index)
        || (x.iter + 1 == y.iter && x.index == 0 && y.index == 0)
        || (x.iter + 1 == y.iter && y.index > 0 && prog[y.iter][y.index].waits
            && prog[x.iter][x.index].num <= prog[y.iter][y.index].num))
  }

  ghost predicate MustFollow(prog: Program, x: Stage, y: Stage) {
    Connects((u, v) => WaitEdge(prog, u, v), x, y)
  }

  /** The greatest index numbered at most s, 0 if there is none. */
  function GreatestAtMost(pre: seq<int>, s: int): (g: nat)
    ensures g < |pre| || g == 0
    ensures g > 0 ==> pre[g] <= s
    ensures forall j | g < j < |pre| :: pre[j] > s
  {
    GreatestBelow(pre, |pre|, s)
  }

  function GreatestBelow(pre: seq<int>, n: nat, s: int): (g: nat)
    requires n <= |pre|
    ensures g < n || g == 0
    ensures g > 0 ==> pre[g] <= s
    ensures forall j | g < j < n :: pre[j] > s
  {
    if n == 0 then 0
    else if pre[n - 1] <= s then n - 1
    else GreatestBelow(pre, n - 1, s)
  }

  function FullRow(pre: seq<int>, row: seq<Entry>): (r: seq<nat>)
    ensures |r| == |row|
    ensures forall k {:trigger r[k]} | 0 <= k < |row| :: r[k] == if k > 0 && row[k].waits then GreatestAtMost(pre, row[k].num) else 0
  {
    seq(|row|, k requires 0 <= k < |row| => if k > 0 && row[k].waits then GreatestAtMost(pre, row[k].num) else 0)
  }

  function RecordedDag(prog: Program): (d: Lefts)
    ensures |d| == |prog| && forall i {:trigger d[i]} | 0 <= i < |prog| :: d[i] == RecordedRow(PreOf(prog, i), prog[i])
  {
    seq(|prog|, i requires 0 <= i < |prog| => RecordedRow(PreOf(prog, i), prog[i]))
  }

  function FullDag(prog: Program): (d: Lefts)
    ensures |d| == |prog| && forall i {:trigger d[i]} | 0 <= i < |prog| :: d[i] == FullRow(PreOf(prog, i), prog[i])
  {
    seq(|prog|, i requires 0 <= i < |prog| => FullRow(PreOf(prog, i), prog[i]))
  }

  lemma PreOfInOrder(prog: Program, i: nat)
    requires ProgramInOrder(prog) && i < |prog|
    ensures NonDecreasing(PreOf(prog, i)) && |PreOf(prog, i)| > 0 && RowInOrder(prog[i])
    ensures |PreOf(prog, i)| == if i == 0 then 1 else |prog[i - 1]|
  {
    assert InOrderAt(prog, i);
    if i > 0 { assert InOrderAt(prog, i - 1); }
  }

  lemma RecordedDagIsWellFormed(prog: Program)
    requires ProgramInOrder(prog)
    ensures WellFormed(RecordedDag(prog))
  {
    var d := RecordedDag(prog);
    forall i: nat | i < |d| ensures RowFits(d, i) {
      PreOfInOrder(prog, i);
      RecordedRowIsWellFormed(PreOf(prog, i), prog[i]);
    }
  }

  /** The frontier of the full edges of a row belongs to the last wait. */
  lemma {:induction false} FullFrontier(pre: seq<int>, row: seq<Entry>, k: nat)
    requires RowInOrder(row) && k < |row|
    ensures Frontier(FullRow(pre, row), k) == 0
         || Frontier(FullRow(pre, row), k) <= GreatestAtMost(pre, row[k].num)
  {
    if k > 0 && FullRow(pre, row)[k] == 0 {
      FullFrontier(pre, row, k - 1);
      assert Nums(row)[k - 1] <= Nums(row)[k];
    }
  }

  lemma FullRowIsWellFormed(pre: seq<int>, row: seq<Entry>)
    requires |pre| > 0 && RowInOrder(row)
    ensures WellFormedRow(FullRow(pre, row), |pre|)
  {
    var r := FullRow(pre, row);
    forall k: nat | 1 <= k < |row| ensures NotBehind(r, k) {
      FullFrontier(pre, row, k - 1);
      assert Nums(row)[k - 1] <= Nums(row)[k];
    }
  }

  lemma FullDagIsWellFormed(prog: Program)
    requires ProgramInOrder(prog)
    ensures WellFormed(FullDag(prog))
  {
    var d := FullDag(prog);
    forall i: nat | i < |d| ensures RowFits(d, i) {
      PreOfInOrder(prog, i);
      FullRowIsWellFormed(PreOf(prog, i), prog[i]);
    }
  }

  lemma LeftEdgeIsWaitEdge(prog: Program, u: Stage, v: Stage)
    requires HasStage(prog, u) && HasStage(prog, v) && u.iter + 1 == v.iter && v.index > 0
    requires prog[v.iter][v.index].waits && PreOf(prog, v.iter)[u.index] <= prog[v.iter][v.index].num
    ensures WaitEdge(prog, u, v)
  {
  }

  lemma FullEdgeIsWaitEdge(prog: Program, u: Stage, v: Stage)
    requires Edge(FullDag(prog), u, v)
    ensures WaitEdge(prog, u, v)
  {
    assert HasStage(prog, u) && HasStage(prog, v);
    if u.iter != v.iter && v.index > 0 {
      var pre := PreOf(prog, v.iter);
      assert FullDag(prog)[v.iter] == FullRow(pre, prog[v.iter]);
      assert prog[v.iter][v.index].waits && GreatestAtMost(pre, prog[v.iter][v.index].num) == u.index;
      LeftEdgeIsWaitEdge(prog, u, v);
    }
  }

  /** Every recorded edge is a wait edge. */
  lemma RecordedEdgeIsWaitEdge(prog: Program, u: Stage, v: Stage)
    requires ProgramInOrder(prog) && Edge(RecordedDag(prog), u, v)
    ensures WaitEdge(prog, u, v)
  {
    assert HasStage(prog, u) && HasStage(prog, v);
    if u.iter != v.iter && v.index > 0 {
      assert RecordedDag(prog)[v.iter] == RecordedRow(PreOf(prog, v.iter), prog[v.iter]);
      assert RecordedLeft(PreOf(prog, v.iter), prog[v.iter], v.index) == u.index;
      RecordedLeftIsReached(prog, v.iter, v.index);
      LeftEdgeIsWaitEdge(prog, u, v);
    }
  }

  lemma RecordedLeftIsReached(prog: Program, i: nat, k: nat)
    requires ProgramInOrder(prog) && i < |prog| && k < |prog[i]|
    requires RecordedLeft(PreOf(prog, i), prog[i], k) != 0
    ensures prog[i][k].waits && RecordedLeft(PreOf(prog, i), prog[i], k) < |PreOf(prog, i)|
    ensures PreOf(prog, i)[RecordedLeft(PreOf(prog, i), prog[i], k)] <= prog[i][k].num
  {
    PreOfInOrder(prog, i);
    ScansAreLinear(PreOf(prog, i), prog[i], k);
    ScanShape(PreOf(prog, i), Cursor(PreOf(prog, i), prog[i], k), prog[i][k].num, 0);
  }

  /** The recorded dag never orders stages that the program leaves unordered. */
  lemma RecordedReachIsFollowed(prog: Program, x: Stage, y: Stage)
    requires ProgramInOrder(prog) && HasStage(prog, x) && HasStage(prog, y)
    requires Reaches(RecordedDag(prog), x, y)
    ensures MustFollow(prog, x, y)
  {
    var e := (u, v) => WaitEdge(prog, u, v);
    RecordedDagIsWellFormed(prog);
    ReachesIffByIndex(RecordedDag(prog), x, y);
    forall u, v | Edge(RecordedDag(prog), u, v) ensures e(u, v) {
      RecordedEdgeIsWaitEdge(prog, u, v);
    }
    ReachedByPath(RecordedDag(prog), e, x, y);
  }

  /** A wait edge leads from a stage that is not behind the frontier of its target. */
  lemma WaitEdgeWithinFrontier(prog: Program, u: Stage, v: Stage)
    requires ProgramInOrder(prog) && WaitEdge(prog, u, v) && u.iter < v.iter
    ensures u.index <= Frontier(FullDag(prog)[v.iter], v.index) < |prog[u.iter]|
  {
    var pre, row := PreOf(prog, v.iter), prog[v.iter];
    PreOfInOrder(prog, v.iter);
    FullRowIsWellFormed(pre, row);
    FrontierIsMonotone(FullRow(pre, row), |pre|, v.index, v.index);
    if v.index > 0 {
      assert pre[u.index] <= row[v.index].num;
    }
  }

  lemma ClosedUnderWaitEdge(prog: Program, x: Stage, u: Stage, v: Stage)
    requires ProgramInOrder(prog)
    requires ReachesByIndex(FullDag(prog), x, u) && WaitEdge(prog, u, v)
    ensures ReachesByIndex(FullDag(prog), x, v)
  {
    var d := FullDag(prog);
    FullDagIsWellFormed(prog);
    if u.iter == v.iter {
      LastReachingIsMonotone(d, x.iter, u.iter, u.index, v.index);
    } else {
      WaitEdgeWithinFrontier(prog, u, v);
      ReachesAcross(d, x, u, v);
    }
  }

  lemma {:induction false} PathStaysFollowed(prog: Program, p: seq<Stage>, x: Stage)
    requires ProgramInOrder(prog) && HasStage(prog, x)
    requires IsPath((u, v) => WaitEdge(prog, u, v), p) && p[0] == x
    ensures ReachesByIndex(FullDag(prog), x, p[|p| - 1])
    decreases |p|
  {
    var e := (u, v) => WaitEdge(prog, u, v);
    if |p| > 1 {
      var q := p[..|p| - 1];
      assert IsPath(e, q) by {
        forall i | 0 <= i < |q| - 1 ensures e(q[i], q[i + 1]) { assert e(p[i], p[i + 1]); }
      }
      PathStaysFollowed(prog, q, x);
      assert e(p[|p| - 2], p[|p| - 1]);
      ClosedUnderWaitEdge(prog, x, p[|p| - 2], p[|p| - 1]);
    }
  }

  /** Following every wait edge amounts to following the greatest one of each wait. */
  lemma MustFollowIffByIndex(prog: Program, x: Stage, y: Stage)
    requires ProgramInOrder(prog) && HasStage(prog, x) && HasStage(prog, y)
    ensures MustFollow(prog, x, y) <==> ReachesByIndex(FullDag(prog), x, y)
  {
    var d := FullDag(prog);
    var e := (u, v) => WaitEdge(prog, u, v);
    FullDagIsWellFormed(prog);
    if MustFollow(prog, x, y) {
      var p :| IsPath(e, p) && p[0] == x && p[|p| - 1] == y;
      PathStaysFollowed(prog, p, x);
    }
    if ReachesByIndex(d, x, y) {
      forall u, v | Edge(d, u, v) ensures e(u, v) {
        FullEdgeIsWaitEdge(prog, u, v);
      }
      ReachedByPath(d, e, x, y);
    }
  }

  // -------------------------------------------- dropping edges changes nothing

  /** A stage waits on a number that the iteration to its left uses twice. */
  ghost predicate WaitsOnRepeatedNumber(pre: seq<int>, row: seq<Entry>, k: nat, j: nat)
    requires k < |row|
  {
    && k > 0 && row[k].waits
    && 1 <= j < |pre| - 1 && pre[j] == row[k].num && pre[j + 1] == row[k].num
  }

  ghost predicate NoRepeatedWait(prog: Program) {
    forall i: nat, k: nat, j: nat | i < |prog| && k < |prog[i]| :: !WaitsOnRepeatedNumber(PreOf(prog, i), prog[i], k, j)
  }

  /** What has been consumed is numbered at most like the current stage, and
      without repeated numbers the next left stage is numbered higher. */
  lemma {:induction false} CursorSeparates(pre: seq<int>, row: seq<Entry>, k: nat)
    requires NonDecreasing(pre) && |pre| > 0 && RowInOrder(row) && 1 <= k <= |row|
    ensures 1 <= Cursor(pre, row, k) <= |pre|
    ensures forall j | 1 <= j < Cursor(pre, row, k) :: pre[j] <= row[k - 1].num
    ensures k > 1 && row[k - 1].waits && Cursor(pre, row, k) < |pre| ==> pre[Cursor(pre, row, k)] >= row[k - 1].num
    ensures k > 1 && row[k - 1].waits && Cursor(pre, row, k) < |pre| && pre[Cursor(pre, row, k)] == row[k - 1].num
            ==> WaitsOnRepeatedNumber(pre, row, k - 1, Cursor(pre, row, k) - 1)
  {
    ScansAreLinear(pre, row, k);
    if k > 1 {
      CursorSeparates(pre, row, k - 1);
      assert Nums(row)[k - 2] <= Nums(row)[k - 1];
      if row[k - 1].waits {
        ScanShape(pre, Cursor(pre, row, k - 1), row[k - 1].num, 0);
      }
    }
  }

  lemma {:induction false} SameFrontier(pre: seq<int>, row: seq<Entry>, k: nat)
    requires NonDecreasing(pre) && |pre| > 0 && RowInOrder(row) && k < |row|
    requires forall m: nat, j: nat | m < |row| :: !WaitsOnRepeatedNumber(pre, row, m, j)
    ensures Frontier(RecordedRow(pre, row), k) == Frontier(FullRow(pre, row), k)
  {
    FrontierIsCursor(pre, row, k);
    if k > 0 {
      SameFrontier(pre, row, k - 1);
      FrontierIsCursor(pre, row, k - 1);
      CursorSeparates(pre, row, k + 1);
      CursorSeparates(pre, row, k);
      if row[k].waits {
        var c := Cursor(pre, row, k + 1);
        var g := GreatestAtMost(pre, row[k].num);
        assert !WaitsOnRepeatedNumber(pre, row, k, c - 1);
        assert c < |pre| ==> pre[c] > row[k].num;
        assert c > 1 ==> pre[c - 1] <= row[k].num;
        assert g >= c - 1;
        assert g <= c - 1;
        if g == 0 {
          FullFrontier(pre, row, k - 1);
          assert Nums(row)[k - 1] <= Nums(row)[k];
        }
      }
    }
  }

  lemma SameFrontiers(prog: Program, y: Stage)
    requires ProgramInOrder(prog) && NoRepeatedWait(prog) && HasStage(prog, y)
    ensures SameFrontierAt(RecordedDag(prog), FullDag(prog), y)
  {
    PreOfInOrder(prog, y.iter);
    SameFrontier(PreOf(prog, y.iter), prog[y.iter], y.index);
  }

  /** The first wait of the row on a repeated number stops at the first copy. */
  lemma FirstWaitStopsShort(pre: seq<int>, row: seq<Entry>, k: nat, j: nat)
    requires NonDecreasing(pre) && |pre| > 0 && RowInOrder(row) && k < |row|
    requires WaitsOnRepeatedNumber(pre, row, k, j)
    ensures Frontier(RecordedRow(pre, row), FirstWaitOn(row, k)) <= j
  {
    var m := FirstWaitOn(row, k);
    forall l | 0 < l < m && row[l].waits ensures row[l].num < pre[j] {
      assert Nums(row)[l] <= Nums(row)[m];
    }
    FirstWaitFindsBothUnconsumed(pre, row, m, j);
    ScansAreLinear(pre, row, m);
    ScanMeetsEqual(pre, Cursor(pre, row, m), row[m].num, 0, j);
    FrontierIsCursor(pre, row, m);
  }

  lemma WaitEdgeIsFollowed(prog: Program, x: Stage, y: Stage)
    requires WaitEdge(prog, x, y)
    ensures MustFollow(prog, x, y)
  {
    var e := (u, v) => WaitEdge(prog, u, v);
    ConnectsToItself(e, x);
    ConnectsByOneMore(e, x, x, y);
  }

  /** A wait on a repeated number makes stages that the program orders look parallel. */
  lemma RepeatedWaitLosesAnEdge(prog: Program, i: nat, k: nat, j: nat)
    returns (x: Stage, y: Stage)
    requires ProgramInOrder(prog) && i < |prog| && k < |prog[i]|
    requires WaitsOnRepeatedNumber(PreOf(prog, i), prog[i], k, j)
    ensures HasStage(prog, x) && HasStage(prog, y) && x.iter + 1 == y.iter
    ensures MustFollow(prog, x, y) && !Reaches(RecordedDag(prog), x, y)
  {
    x, y := Stage(i - 1, j + 1), Stage(i, FirstWaitOn(prog[i], k));
    assert PreOf(prog, i)[j + 1] == prog[x.iter][x.index].num;
    WaitEdgeIsFollowed(prog, x, y);
    PreOfInOrder(prog, i);
    FirstWaitStopsShort(PreOf(prog, i), prog[i], k, j);
    RecordedDagIsWellFormed(prog);
    NotReachedBeyondFrontier(RecordedDag(prog), x, y);
  }

  /** The first stage of the row that waits on the number stage k waits on. */
  function FirstWaitOn(row: seq<Entry>, k: nat): (m: nat)
    requires 0 < k < |row| && row[k].waits
    ensures 0 < m <= k && row[m].waits && row[m].num == row[k].num
    ensures forall l | 0 < l < m :: !(row[l].waits && row[l].num == row[k].num)
  {
    FirstWaitFrom(row, k, 1)
  }

  function FirstWaitFrom(row: seq<Entry>, k: nat, from: nat): (m: nat)
    requires 0 < from <= k < |row| && row[k].waits
    requires forall l | 0 < l < from :: !(row[l].waits && row[l].num == row[k].num)
    ensures 0 < m <= k && row[m].waits && row[m].num == row[k].num
    ensures forall l | 0 < l < m :: !(row[l].waits && row[l].num == row[k].num)
    decreases k - from
  {
    if row[from].waits && row[from].num == row[k].num then from else FirstWaitFrom(row, k, from + 1)
  }

  /** Before the first wait on a number nothing with that number is consumed. */
  lemma {:induction false} FirstWaitFindsBothUnconsumed(pre: seq<int>, row: seq<Entry>, m: nat, j: nat)
    requires NonDecreasing(pre) && |pre| > 0 && RowInOrder(row) && 0 < m < |row| && 1 <= j < |pre|
    requires forall l | 0 < l < m :: row[l].waits ==> row[l].num < pre[j]
    ensures Cursor(pre, row, m) <= j
    decreases m
  {
    if m > 1 {
      FirstWaitFindsBothUnconsumed(pre, row, m - 1, j);
      ScansAreLinear(pre, row, m - 1);
      if row[m - 1].waits {
        ScanShape(pre, Cursor(pre, row, m - 1), row[m - 1].num, 0);
      }
    }
  }

  /** The recorded edges mean the same as all wait edges of the program exactly
      if no stage waits on a number that the iteration to its left uses twice. */
  lemma DroppingEdgesPreservesMeaningIff(prog: Program)
    requires ProgramInOrder(prog)
    ensures (forall x, y | HasStage(prog, x) && HasStage(prog, y) :: Reaches(RecordedDag(prog), x, y) <==> MustFollow(prog, x, y))
       <==> NoRepeatedWait(prog)
  {
    RecordedDagIsWellFormed(prog);
    if NoRepeatedWait(prog) {
      FullDagIsWellFormed(prog);
      forall z | Has(RecordedDag(prog), z)
        ensures Has(FullDag(prog), z) && SameFrontierAt(RecordedDag(prog), FullDag(prog), z)
      {
        SameFrontiers(prog, z);
      }
      forall x, y | HasStage(prog, x) && HasStage(prog, y)
        ensures Reaches(RecordedDag(prog), x, y) <==> MustFollow(prog, x, y)
      {
        ReachesIffByIndex(RecordedDag(prog), x, y);
        MustFollowIffByIndex(prog, x, y);
        if x.iter <= y.iter {
          SameFrontiersReachAlike(RecordedDag(prog), FullDag(prog), x.iter, y);
        }
      }
    } else {
      var i: nat, k: nat, j: nat :| i < |prog| && k < |prog[i]| && WaitsOnRepeatedNumber(PreOf(prog, i), prog[i], k, j);
      var x, y := RepeatedWaitLosesAnEdge(prog, i, k, j);
    }
  }
}
