/** The dag of a pipeline. A stage is named by its iteration and by its place
    in that iteration's stage list; iterations are counted from 0 here, so
    iteration number n of the program is iteration n - 1. */
module PipelineDag {

  datatype Stage = Stage(iter: nat, index: nat)

  /** For every stage the index of the stage of the iteration to the left it
      depends on; 0 means "none of its own" for every stage but stage 0. */
  type Lefts = seq<seq<nat>>

  predicate Has(d: Lefts, x: Stage) {
    x.iter < |d| && x.index < |d[x.iter]|
  }

  /** The left index that the stages 0 .. k of a row have reached: the last
      dependency that is not 0. */
  function Frontier(row: seq<nat>, k: nat): nat
    requires k < |row|
  {
    if k == 0 || row[k] != 0 then row[k] else Frontier(row, k - 1)
  }

  ghost predicate NotBehind(row: seq<nat>, k: nat)
    requires 1 <= k < |row|
  {
    row[k] != 0 ==> Frontier(row, k - 1) <= row[k]
  }

  ghost predicate WellFormedRow(row: seq<nat>, width: nat) {
    && |row| > 0 && row[0] == 0
    && (forall k | 0 <= k < |row| :: row[k] < width)
    && (forall k: nat | 1 <= k < |row| :: NotBehind(row, k))
  }

  function WidthLeftOf(d: Lefts, i: nat): nat
    requires i <= |d|
  {
    if i == 0 then 1 else |d[i - 1]|
  }

  ghost predicate RowFits(d: Lefts, i: nat)
    requires i < |d|
  {
    WellFormedRow(d[i], WidthLeftOf(d, i))
  }

  ghost predicate WellFormed(d: Lefts) {
    forall i: nat | i < |d| :: RowFits(d, i)
  }

  /** The last stage of iteration a that reaches y, found by following the
      left dependencies back from y. */
  function LastReaching(d: Lefts, a: nat, y: Stage): nat
    requires a <= y.iter && Has(d, y)
    decreases y.iter
  {
    if a == y.iter then y.index
    else
      var u := Stage(y.iter - 1, Frontier(d[y.iter], y.index));
      if Has(d, u) then LastReaching(d, a, u) else 0
  }

  // ------------------------------------------------------------ reachability

  /** Down edges, the edge between consecutive stages 0, and the recorded left edges. */
  predicate Edge(d: Lefts, x: Stage, y: Stage) {
    && Has(d, x) && Has(d, y)
    && (|| (x.iter == y.iter && x.index + 1 == y.index)
        || (x.iter + 1 == y.iter && d[y.iter][y.index] == x.index && (y.index == 0 || x.index != 0)))
  }

  ghost predicate IsPath(e: (Stage, Stage) -> bool, p: seq<Stage>) {
    && |p| > 0
    && forall i | 0 <= i < |p| - 1 :: e(p[i], p[i + 1])
  }

  ghost predicate Connects(e: (Stage, Stage) -> bool, x: Stage, y: Stage) {
    exists p :: IsPath(e, p) && p[0] == x && p[|p| - 1] == y
  }

  ghost predicate Reaches(d: Lefts, x: Stage, y: Stage) {
    Connects((u, v) => Edge(d, u, v), x, y)
  }

  /** The closed form of reachability. */
  predicate ReachesByIndex(d: Lefts, x: Stage, y: Stage) {
    Has(d, x) && Has(d, y) && x.iter <= y.iter && x.index <= LastReaching(d, x.iter, y)
  }

  // ---------------------------------------------------------------- frontier

  lemma {:induction false} FrontierIsMonotone(row: seq<nat>, width: nat, j: nat, k: nat)
    requires WellFormedRow(row, width) && j <= k < |row|
    ensures Frontier(row, j) <= Frontier(row, k) < width
    decreases k
  {
    if j < k {
      assert NotBehind(row, k);
      FrontierIsMonotone(row, width, j, k - 1);
    } else if k > 0 {
      FrontierIsMonotone(row, width, k - 1, k - 1);
    }
  }

  /** The stage that brought the frontier where it is. */
  function FrontierSource(row: seq<nat>, k: nat): (j: nat)
    requires k < |row|
    ensures j <= k && row[j] == Frontier(row, k) && (j == 0 || row[j] != 0)
  {
    if k == 0 || row[k] != 0 then k else FrontierSource(row, k - 1)
  }

  lemma {:induction false} FrontierStays(row: seq<nat>, row': seq<nat>, k: nat)
    requires row <= row' && k < |row|
    ensures Frontier(row', k) == Frontier(row, k)
  {
    if k > 0 {
      FrontierStays(row, row', k - 1);
    }
  }

  lemma {:induction false} LastReachingInRange(d: Lefts, a: nat, y: Stage)
    requires WellFormed(d) && Has(d, y) && a <= y.iter
    ensures LastReaching(d, a, y) < |d[a]|
    ensures a < y.iter ==> Has(d, Stage(y.iter - 1, Frontier(d[y.iter], y.index)))
    decreases y.iter
  {
    if a < y.iter {
      assert RowFits(d, y.iter);
      FrontierIsMonotone(d[y.iter], WidthLeftOf(d, y.iter), y.index, y.index);
      LastReachingInRange(d, a, Stage(y.iter - 1, Frontier(d[y.iter], y.index)));
    }
  }

  lemma {:induction false} LastReachingIsMonotone(d: Lefts, a: nat, i: nat, j: nat, k: nat)
    requires WellFormed(d) && a <= i < |d| && j <= k < |d[i]|
    ensures LastReaching(d, a, Stage(i, j)) <= LastReaching(d, a, Stage(i, k))
    decreases i
  {
    if a < i {
      assert RowFits(d, i);
      FrontierIsMonotone(d[i], WidthLeftOf(d, i), j, k);
      LastReachingIsMonotone(d, a, i - 1, Frontier(d[i], j), Frontier(d[i], k));
    }
  }

  /** Going back from y to iteration a may stop over at iteration m. */
  lemma {:induction false} LastReachingComposes(d: Lefts, a: nat, m: nat, y: Stage)
    requires WellFormed(d) && Has(d, y) && a <= m <= y.iter
    ensures LastReaching(d, m, y) < |d[m]|
    ensures LastReaching(d, a, y) == LastReaching(d, a, Stage(m, LastReaching(d, m, y)))
    decreases y.iter
  {
    LastReachingInRange(d, m, y);
    if m < y.iter {
      LastReachingInRange(d, a, y);
      LastReachingComposes(d, a, m, Stage(y.iter - 1, Frontier(d[y.iter], y.index)));
    }
  }

  // ------------------------------------------------- the closed form is exact

  lemma ClosedUnderEdge(d: Lefts, x: Stage, u: Stage, v: Stage)
    requires WellFormed(d) && ReachesByIndex(d, x, u) && Edge(d, u, v)
    ensures ReachesByIndex(d, x, v)
  {
    if u.iter == v.iter {
      LastReachingIsMonotone(d, x.iter, u.iter, u.index, v.index);
    } else {
      assert Frontier(d[v.iter], v.index) == u.index;
    }
  }

  lemma {:induction false} PathStaysReached(d: Lefts, p: seq<Stage>, x: Stage)
    requires WellFormed(d) && Has(d, x)
    requires IsPath((u, v) => Edge(d, u, v), p) && p[0] == x
    ensures ReachesByIndex(d, x, p[|p| - 1])
    decreases |p|
  {
    var e := (u, v) => Edge(d, u, v);
    if |p| > 1 {
      var q := p[..|p| - 1];
      assert IsPath(e, q) by {
        forall i | 0 <= i < |q| - 1 ensures e(q[i], q[i + 1]) { assert e(p[i], p[i + 1]); }
      }
      PathStaysReached(d, q, x);
      assert e(p[|p| - 2], p[|p| - 1]);
      ClosedUnderEdge(d, x, p[|p| - 2], p[|p| - 1]);
    }
  }

  lemma ConnectsByOneMore(e: (Stage, Stage) -> bool, x: Stage, u: Stage, v: Stage)
    requires Connects(e, x, u) && e(u, v)
    ensures Connects(e, x, v)
  {
    var p :| IsPath(e, p) && p[0] == x && p[|p| - 1] == u;
    var q := p + [v];
    forall i | 0 <= i < |q| - 1 ensures e(q[i], q[i + 1]) {
      if i < |p| - 1 { assert e(p[i], p[i + 1]); }
    }
    assert IsPath(e, q) && q[0] == x && q[|q| - 1] == v;
  }

  lemma ConnectsToItself(e: (Stage, Stage) -> bool, x: Stage)
    ensures Connects(e, x, x)
  {
    assert IsPath(e, [x]);
  }

  lemma {:induction false} ConnectsDown(d: Lefts, e: (Stage, Stage) -> bool, x: Stage, i: nat, j: nat, k: nat)
    requires i < |d| && j <= k < |d[i]|
    requires forall u, v | Edge(d, u, v) :: e(u, v)
    requires Connects(e, x, Stage(i, j))
    ensures Connects(e, x, Stage(i, k))
    decreases k
  {
    if j < k {
      ConnectsDown(d, e, x, i, j, k - 1);
      assert Edge(d, Stage(i, k - 1), Stage(i, k));
      ConnectsByOneMore(e, x, Stage(i, k - 1), Stage(i, k));
    }
  }

  lemma {:induction false} ReachedByPath(d: Lefts, e: (Stage, Stage) -> bool, x: Stage, y: Stage)
    requires WellFormed(d) && ReachesByIndex(d, x, y)
    requires forall u, v | Edge(d, u, v) :: e(u, v)
    ensures Connects(e, x, y)
    decreases y.iter
  {
    ConnectsToItself(e, x);
    if x.iter == y.iter {
      ConnectsDown(d, e, x, x.iter, x.index, y.index);
    } else {
      var row := d[y.iter];
      var u := Stage(y.iter - 1, Frontier(row, y.index));
      LastReachingInRange(d, x.iter, y);
      ReachedByPath(d, e, x, u);
      var v := Stage(y.iter, FrontierSource(row, y.index));
      assert Edge(d, u, v);
      ConnectsByOneMore(e, x, u, v);
      ConnectsDown(d, e, x, y.iter, v.index, y.index);
    }
  }

  /** x reaches y along edges of the dag exactly if it is not behind the last
      stage of its iteration that y's left dependencies lead back to. */
  lemma ReachesIffByIndex(d: Lefts, x: Stage, y: Stage)
    requires WellFormed(d) && Has(d, x) && Has(d, y)
    ensures Reaches(d, x, y) <==> ReachesByIndex(d, x, y)
  {
    var e := (u, v) => Edge(d, u, v);
    if Reaches(d, x, y) {
      var p :| IsPath(e, p) && p[0] == x && p[|p| - 1] == y;
      PathStaysReached(d, p, x);
    }
    if ReachesByIndex(d, x, y) {
      ReachedByPath(d, e, x, y);
    }
  }

  /** Stepping from u into the next iteration, up to the frontier of v. */
  lemma ReachesAcross(d: Lefts, x: Stage, u: Stage, v: Stage)
    requires WellFormed(d) && ReachesByIndex(d, x, u) && Has(d, v)
    requires u.iter + 1 == v.iter && u.index <= Frontier(d[v.iter], v.index)
    ensures ReachesByIndex(d, x, v)
  {
    LastReachingInRange(d, u.iter, v);
    LastReachingIsMonotone(d, x.iter, u.iter, u.index, Frontier(d[v.iter], v.index));
  }

  lemma NotReachedBeyondFrontier(d: Lefts, x: Stage, y: Stage)
    requires WellFormed(d) && Has(d, x) && Has(d, y)
    requires x.iter + 1 == y.iter && x.index > Frontier(d[y.iter], y.index)
    ensures !Reaches(d, x, y)
  {
    LastReachingInRange(d, x.iter, y);
    ReachesIffByIndex(d, x, y);
  }

  ghost predicate SameFrontierAt(d: Lefts, d': Lefts, y: Stage)
    requires Has(d, y) && Has(d', y)
  {
    Frontier(d[y.iter], y.index) == Frontier(d'[y.iter], y.index)
  }

  lemma {:induction false} SameFrontiersReachAlike(d: Lefts, d': Lefts, a: nat, y: Stage)
    requires WellFormed(d) && WellFormed(d') && Has(d, y) && a <= y.iter
    requires forall z | Has(d, z) :: Has(d', z) && SameFrontierAt(d, d', z)
    ensures LastReaching(d, a, y) == LastReaching(d', a, y)
    decreases y.iter
  {
    if a < y.iter {
      LastReachingInRange(d, a, y);
      assert SameFrontierAt(d, d', y);
      SameFrontiersReachAlike(d, d', a, Stage(y.iter - 1, Frontier(d[y.iter], y.index)));
    }
  }

  // ------------------------------------------------------------ growing dags

  /** d' is d with stages appended to iterations and new iterations appended. */
  ghost predicate Grows(d: Lefts, d': Lefts) {
    && |d| <= |d'|
    && forall i | 0 <= i < |d| :: d[i] <= d'[i]
  }

  lemma {:induction false} LastReachingStays(d: Lefts, d': Lefts, a: nat, y: Stage)
    requires WellFormed(d) && Grows(d, d') && Has(d, y) && a <= y.iter
    ensures LastReaching(d', a, y) == LastReaching(d, a, y)
    decreases y.iter
  {
    if a < y.iter {
      assert d[y.iter] <= d'[y.iter];
      FrontierStays(d[y.iter], d'[y.iter], y.index);
      LastReachingInRange(d, a, y);
      var u := Stage(y.iter - 1, Frontier(d[y.iter], y.index));
      assert d[u.iter] <= d'[u.iter];
      LastReachingStays(d, d', a, u);
    }
  }

  /** What is reached is settled when a stage appears: later stages change nothing. */
  lemma ReachabilityIsSettled(d: Lefts, d': Lefts, x: Stage, y: Stage)
    requires WellFormed(d) && WellFormed(d') && Grows(d, d') && Has(d, x) && Has(d, y)
    ensures Reaches(d, x, y) <==> Reaches(d', x, y)
  {
    assert d[x.iter] <= d'[x.iter] && d[y.iter] <= d'[y.iter];
    if x.iter <= y.iter {
      LastReachingStays(d, d', x.iter, y);
    }
    ReachesIffByIndex(d, x, y);
    ReachesIffByIndex(d', x, y);
  }
}
