/** Why the right-first list is a picture of the dag. A placement is the dag
    together with a list node for every stage. Every iteration has one stage
    more than has started: the one that would come next if it waited for
    nothing, whose node is the down continuation of the current stage. */
module RightFirstOrder {
  import opened OrderList
  import opened PipelineDag

  datatype Placement = Placement(
    dag: Lefts,
    node: seq<seq<Node>>,  // the place of every stage, the pending one included
    cont: seq<seq<Node>>,  // the right continuation of every started stage
    list: seq<Node>)

  predicate HasPoint(p: Placement, x: Stage) {
    x.iter < |p.node| && x.index < |p.node[x.iter]|
  }

  predicate Started(p: Placement, x: Stage) {
    x.iter < |p.cont| && x.index < |p.cont[x.iter]|
  }

  function NodeOf(p: Placement, x: Stage): Node
    requires HasPoint(p, x)
  {
    p.node[x.iter][x.index]
  }

  function ContOf(p: Placement, x: Stage): Node
    requires Started(p, x)
  {
    p.cont[x.iter][x.index]
  }

  /** Left dependencies lead to started stages, never to pending ones. */
  ghost predicate ShapeAt(p: Placement, i: nat)
    requires i < |p.dag| == |p.node| == |p.cont|
  {
    && |p.dag[i]| == |p.node[i]| == |p.cont[i]| + 1
    && WellFormedRow(p.dag[i], if i == 0 then 1 else |p.cont[i - 1]|)
  }

  ghost predicate Shape(p: Placement) {
    && |p.dag| == |p.node| == |p.cont|
    && (forall i: nat | i < |p.dag| :: ShapeAt(p, i))
    && WellFormed(p.dag)
    && IsOrder(p.list)
    && (forall x | HasPoint(p, x) :: NodeOf(p, x) < |p.list|)
    && (forall x | Started(p, x) :: ContOf(p, x) < |p.list|)
  }

  /** The order of two different stages in a right-first walk of the dag: a
      stage of an earlier iteration comes first exactly if it reaches the other. */
  predicate RightFirstBefore(d: Lefts, x: Stage, y: Stage)
    requires Has(d, x) && Has(d, y)
  {
    if x.iter <= y.iter then x.index <= LastReaching(d, x.iter, y)
    else y.index > LastReaching(d, y.iter, x)
  }

  ghost predicate InPlace(p: Placement, x: Stage, y: Stage)
    requires HasPoint(p, x) && HasPoint(p, y) && Has(p.dag, x) && Has(p.dag, y)
  {
    x != y && RightFirstBefore(p.dag, x, y) ==> Precedes(p.list, NodeOf(p, x), NodeOf(p, y))
  }

  /** A right continuation becomes the place of a stage at most once: when the
      frontier of the next iteration moves over it. */
  ghost predicate ContUsedOnce(p: Placement, u: Stage, z: Stage)
    requires Started(p, u) && HasPoint(p, z) && Has(p.dag, z)
  {
    NodeOf(p, z) == ContOf(p, u) ==> z.iter == u.iter + 1 && u.index <= Frontier(p.dag[z.iter], z.index)
  }

  ghost predicate PlacementInv(p: Placement) {
    && Shape(p)
    && (forall x | HasPoint(p, x) :: Has(p.dag, x))
    && (forall x, y {:trigger InPlace(p, x, y)} | HasPoint(p, x) && HasPoint(p, y) :: InPlace(p, x, y))
    && (forall u | Started(p, u) :: HasPoint(p, u) && Adjacent(p.list, NodeOf(p, u), ContOf(p, u)))
    && (forall u, z {:trigger ContUsedOnce(p, u, z)} | Started(p, u) && HasPoint(p, z) :: ContUsedOnce(p, u, z))
  }

  // ------------------------------------------------------------ the three moves

  /** A new iteration: its stage 0 takes the right continuation of the previous stage 0. */
  function OpenRow(p: Placement): Placement
    requires |p.node| == 0 || (|p.cont| == |p.node| && |p.cont[|p.node| - 1]| > 0)
  {
    p.(dag := p.dag + [[0]],
       node := p.node + [[if |p.node| == 0 then 0 else p.cont[|p.node| - 1][0]]],
       cont := p.cont + [[]])
  }

  /** The pending stage of iteration n gets a left dependency of its own. */
  function Redirect(p: Placement, n: nat, j: nat): Placement
    requires 0 < n < |p.dag| && |p.dag| == |p.node| == |p.cont|
    requires |p.dag[n]| == |p.node[n]| > 0 && j < |p.cont[n - 1]|
  {
    var m := |p.dag[n]| - 1;
    var row: seq<nat> := p.dag[n][..m] + [j];
    var places: seq<Node> := p.node[n][..m] + [p.cont[n - 1][j]];
    p.(dag := p.dag[n := row], node := p.node[n := places])
  }

  /** The pending stage of iteration n starts; t is the list with its right
      and its down continuation. */
  function Enter(p: Placement, n: nat, t: seq<Node>): Placement
    requires n < |p.dag| == |p.node| == |p.cont|
  {
    Placement(p.dag[n := p.dag[n] + [0]],
              p.node[n := p.node[n] + [|p.list| + 1]],
              p.cont[n := p.cont[n] + [|p.list|]],
              t)
  }

  // ------------------------------------------------- facts about any placement

  lemma BeforeIsTotal(d: Lefts, x: Stage, y: Stage)
    requires Has(d, x) && Has(d, y) && x != y
    ensures RightFirstBefore(d, x, y) <==> !RightFirstBefore(d, y, x)
  {
  }

  /** In both directions: the list order of the places is the right-first order. */
  lemma PlacesAreRightFirst(p: Placement, x: Stage, y: Stage)
    requires PlacementInv(p) && HasPoint(p, x) && HasPoint(p, y) && x != y
    ensures Has(p.dag, x) && Has(p.dag, y)
    ensures Precedes(p.list, NodeOf(p, x), NodeOf(p, y)) <==> RightFirstBefore(p.dag, x, y)
    ensures Precedes(p.list, NodeOf(p, y), NodeOf(p, x)) <==> !RightFirstBefore(p.dag, x, y)
    ensures NodeOf(p, x) != NodeOf(p, y)
  {
    assert InPlace(p, x, y) && InPlace(p, y, x);
    BeforeIsTotal(p.dag, x, y);
  }

  /** A stage compares with the right continuation of u as it compares with u. */
  lemma ContFollowsItsStage(p: Placement, u: Stage, z: Stage)
    requires PlacementInv(p) && Started(p, u) && HasPoint(p, z) && NodeOf(p, z) != ContOf(p, u)
    ensures HasPoint(p, u) && Has(p.dag, u) && Has(p.dag, z)
    ensures z == u || RightFirstBefore(p.dag, z, u) ==> Precedes(p.list, NodeOf(p, z), ContOf(p, u))
    ensures z != u && !RightFirstBefore(p.dag, z, u) ==> Precedes(p.list, ContOf(p, u), NodeOf(p, z))
  {
    assert Adjacent(p.list, NodeOf(p, u), ContOf(p, u));
    NodesAreThere(p.list, NodeOf(p, z));
    PositionsDiffer(p.list, NodeOf(p, z), ContOf(p, u));
    if z != u {
      PlacesAreRightFirst(p, z, u);
    }
  }

  lemma ContsDiffer(p: Placement, u: Stage, w: Stage)
    requires PlacementInv(p) && Started(p, u) && Started(p, w) && u != w
    ensures ContOf(p, u) != ContOf(p, w)
  {
    PlacesAreRightFirst(p, u, w);
    assert Adjacent(p.list, NodeOf(p, u), ContOf(p, u)) && Adjacent(p.list, NodeOf(p, w), ContOf(p, w));
  }

  // --------------------------------------------------------------- opening a row

  lemma OpenRowShape(p: Placement)
    requires PlacementInv(p) && (|p.node| == 0 || |p.cont[|p.node| - 1]| > 0)
    ensures Shape(OpenRow(p)) && Grows(p.dag, OpenRow(p).dag)
    ensures forall x :: HasPoint(OpenRow(p), x) <==> HasPoint(p, x) || x == Stage(|p.node|, 0)
    ensures forall x :: Started(OpenRow(p), x) <==> Started(p, x)
    ensures forall x | HasPoint(OpenRow(p), x) :: Has(OpenRow(p).dag, x)
  {
    var q := OpenRow(p);
    var n := |p.node|;
    forall i: nat | i < |q.dag| ensures ShapeAt(q, i) && RowFits(q.dag, i) {
      if i < n {
        assert ShapeAt(p, i) && RowFits(p.dag, i);
      } else if n > 0 {
        assert ShapeAt(p, n - 1);
      }
    }
    forall x | HasPoint(q, x) ensures NodeOf(q, x) < |q.list| {
      if x.iter < n { assert HasPoint(p, x) && NodeOf(q, x) == NodeOf(p, x); }
      else if n > 0 { assert Started(p, Stage(n - 1, 0)) && NodeOf(q, x) == ContOf(p, Stage(n - 1, 0)); }
    }
    forall x | Started(q, x) ensures ContOf(q, x) < |q.list| {
      assert Started(p, x) && ContOf(q, x) == ContOf(p, x);
    }
  }

  lemma SameOrderIfGrown(d: Lefts, d': Lefts, x: Stage, y: Stage)
    requires WellFormed(d) && Grows(d, d') && Has(d, x) && Has(d, y)
    ensures Has(d', x) && Has(d', y)
    ensures RightFirstBefore(d', x, y) <==> RightFirstBefore(d, x, y)
  {
    assert d[x.iter] <= d'[x.iter] && d[y.iter] <= d'[y.iter];
    if x.iter <= y.iter {
      LastReachingStays(d, d', x.iter, y);
    } else {
      LastReachingStays(d, d', y.iter, x);
    }
  }

  lemma OpenRowPlaces(p: Placement, x: Stage)
    requires PlacementInv(p) && (|p.node| == 0 || |p.cont[|p.node| - 1]| > 0)
    requires HasPoint(p, x)
    ensures var q, y := OpenRow(p), Stage(|p.node|, 0);
            && HasPoint(q, x) && HasPoint(q, y) && Has(q.dag, x) && Has(q.dag, y)
            && InPlace(q, x, y) && InPlace(q, y, x)
  {
    OpenRowShape(p);
    var q, n := OpenRow(p), |p.node|;
    var u, y := Stage(n - 1, 0), Stage(n, 0);
    assert ShapeAt(p, x.iter);
    assert ContUsedOnce(p, u, x);
    ContFollowsItsStage(p, u, x);
    assert Has(q.dag, u);
    assert LastReaching(q.dag, x.iter, y) == LastReaching(q.dag, x.iter, u);
    LastReachingStays(p.dag, q.dag, x.iter, u);
    assert NodeOf(q, x) == NodeOf(p, x) && NodeOf(q, y) == ContOf(p, u);
    if x.iter == u.iter {
      assert RightFirstBefore(q.dag, x, y) <==> x == u;
    } else {
      assert RightFirstBefore(q.dag, x, y) <==> RightFirstBefore(p.dag, x, u);
    }
  }

  lemma OpenRowKeepsInv(p: Placement)
    requires PlacementInv(p) && (|p.node| == 0 || |p.cont[|p.node| - 1]| > 0)
    ensures PlacementInv(OpenRow(p))
  {
    OpenRowShape(p);
    var q, n := OpenRow(p), |p.node|;
    forall x, y | HasPoint(q, x) && HasPoint(q, y) ensures InPlace(q, x, y) {
      if HasPoint(p, x) && HasPoint(p, y) {
        assert InPlace(p, x, y);
        SameOrderIfGrown(p.dag, q.dag, x, y);
        assert NodeOf(q, x) == NodeOf(p, x) && NodeOf(q, y) == NodeOf(p, y);
      } else if HasPoint(p, x) {
        OpenRowPlaces(p, x);
      } else if HasPoint(p, y) {
        OpenRowPlaces(p, y);
      }
    }
    forall u | Started(q, u) ensures HasPoint(q, u) && Adjacent(q.list, NodeOf(q, u), ContOf(q, u)) {
      assert Started(p, u) && HasPoint(p, u);
      assert NodeOf(q, u) == NodeOf(p, u) && ContOf(q, u) == ContOf(p, u);
    }
    forall u, z | Started(q, u) && HasPoint(q, z) ensures ContUsedOnce(q, u, z) {
      assert Started(p, u) && ContOf(q, u) == ContOf(p, u);
      if HasPoint(p, z) {
        assert ContUsedOnce(p, u, z) && NodeOf(q, z) == NodeOf(p, z) && q.dag[z.iter] == p.dag[z.iter];
      } else if n > 0 && u != Stage(n - 1, 0) {
        ContsDiffer(p, u, Stage(n - 1, 0));
      }
    }
  }

  // ---------------------------------------------------------------- redirecting

  ghost predicate MayRedirect(p: Placement, n: nat, j: nat) {
    && PlacementInv(p) && 0 < n < |p.dag| && j < |p.cont[n - 1]|
    && |p.dag[n]| == |p.node[n]| >= 2
    && p.dag[n][|p.dag[n]| - 1] == 0
    && Frontier(p.dag[n], |p.dag[n]| - 2) < j
  }

  lemma RedirectShape(p: Placement, n: nat, j: nat)
    requires MayRedirect(p, n, j)
    ensures ShapeAt(p, n) && Shape(Redirect(p, n, j))
    ensures forall x :: HasPoint(Redirect(p, n, j), x) <==> HasPoint(p, x)
    ensures forall x | HasPoint(p, x) :: Has(Redirect(p, n, j).dag, x)
    ensures forall x | HasPoint(p, x) && x != Stage(n, |p.dag[n]| - 1) :: NodeOf(Redirect(p, n, j), x) == NodeOf(p, x)
  {
    assert ShapeAt(p, n) && ShapeAt(p, n - 1);
    var q := Redirect(p, n, j);
    var m := |p.dag[n]| - 1;
    forall i: nat | i < |q.dag| ensures ShapeAt(q, i) && RowFits(q.dag, i) {
      assert ShapeAt(p, i) && RowFits(p.dag, i);
      if i == n {
        forall k: nat | 1 <= k < |q.dag[n]| ensures NotBehind(q.dag[n], k) {
          assert NotBehind(p.dag[n], k);
          FrontierOfPrefix(p.dag[n], q.dag[n], k - 1);
        }
      }
    }
    forall x | HasPoint(q, x) ensures NodeOf(q, x) < |q.list| && Has(q.dag, x) {
      assert HasPoint(p, x) && Has(p.dag, x) && ShapeAt(p, x.iter);
      if x == Stage(n, m) { assert NodeOf(q, x) == ContOf(p, Stage(n - 1, j)); }
      else { assert NodeOf(q, x) == NodeOf(p, x); }
    }
    forall x | Started(q, x) ensures ContOf(q, x) < |q.list| {
      assert Started(p, x) && ContOf(q, x) == ContOf(p, x);
    }
  }

  /** The frontier at k only depends on the row up to k. */
  lemma {:induction false} FrontierOfPrefix(row: seq<nat>, row': seq<nat>, k: nat)
    requires k < |row| && k < |row'| && row[..k + 1] == row'[..k + 1]
    ensures Frontier(row, k) == Frontier(row', k)
  {
    assert row[k] == row[..k + 1][k] && row'[k] == row'[..k + 1][k];
    if k > 0 {
      assert row[..k] == row[..k + 1][..k] && row'[..k] == row'[..k + 1][..k];
      FrontierOfPrefix(row, row', k - 1);
    }
  }

  /** Only the redirected stage itself sees the new edge. */
  lemma {:induction false} RedirectKeepsLastReaching(p: Placement, n: nat, j: nat, a: nat, y: Stage)
    requires MayRedirect(p, n, j) && HasPoint(p, y) && a <= y.iter
    requires y != Stage(n, |p.dag[n]| - 1)
    ensures Has(p.dag, y) && Has(Redirect(p, n, j).dag, y)
    ensures LastReaching(Redirect(p, n, j).dag, a, y) == LastReaching(p.dag, a, y)
    decreases y.iter
  {
    RedirectShape(p, n, j);
    var q := Redirect(p, n, j);
    if a < y.iter {
      LastReachingInRange(p.dag, a, y);
      FrontierOfPrefix(p.dag[y.iter], q.dag[y.iter], y.index);
      var u := Stage(y.iter - 1, Frontier(p.dag[y.iter], y.index));
      FrontierIsStarted(p, y);
      assert HasPoint(p, u) && ShapeAt(p, n);
      RedirectKeepsLastReaching(p, n, j, a, u);
    }
  }

  lemma FrontierIsStarted(p: Placement, y: Stage)
    requires PlacementInv(p) && HasPoint(p, y) && y.iter > 0
    ensures Has(p.dag, y) && Started(p, Stage(y.iter - 1, Frontier(p.dag[y.iter], y.index)))
  {
    assert ShapeAt(p, y.iter);
    FrontierIsMonotone(p.dag[y.iter], |p.cont[y.iter - 1]|, y.index, y.index);
  }

  /** The redirected stage compares with every other stage like the left stage
      whose continuation it took. */
  lemma RedirectedPlace(p: Placement, n: nat, j: nat, x: Stage)
    requires MayRedirect(p, n, j) && HasPoint(p, x) && x != Stage(n, |p.dag[n]| - 1)
    ensures var q, y := Redirect(p, n, j), Stage(n, |p.dag[n]| - 1);
            && HasPoint(q, x) && HasPoint(q, y) && Has(q.dag, x) && Has(q.dag, y)
            && InPlace(q, x, y) && InPlace(q, y, x)
  {
    RedirectShape(p, n, j);
    var q, m := Redirect(p, n, j), |p.dag[n]| - 1;
    var u, y := Stage(n - 1, j), Stage(n, m);
    assert Started(p, u) && HasPoint(p, u) && Has(q.dag, u);
    assert NodeOf(q, y) == ContOf(p, u) && NodeOf(q, x) == NodeOf(p, x);
    assert ContUsedOnce(p, u, x);
    assert ShapeAt(p, n) && ShapeAt(p, x.iter);
    assert x.iter == n ==> Frontier(p.dag[n], x.index) < j by {
      if x.iter == n {
        FrontierIsMonotone(p.dag[n], |p.cont[n - 1]|, x.index, m - 1);
      }
    }
    ContFollowsItsStage(p, u, x);
    if x.iter < n {
      assert LastReaching(q.dag, x.iter, y) == LastReaching(q.dag, x.iter, u);
      RedirectKeepsLastReaching(p, n, j, x.iter, u);
    } else {
      RedirectedPlaceAhead(p, n, j, x);
    }
  }

  /** Stages of iteration n and later do not depend on the stage just redirected. */
  lemma RedirectedPlaceAhead(p: Placement, n: nat, j: nat, x: Stage)
    requires MayRedirect(p, n, j) && HasPoint(p, x) && x != Stage(n, |p.dag[n]| - 1) && n <= x.iter
    ensures var q, u, y := Redirect(p, n, j), Stage(n - 1, j), Stage(n, |p.dag[n]| - 1);
            && Has(p.dag, x) && Has(p.dag, u) && Has(q.dag, x) && Has(q.dag, y)
            && RightFirstBefore(p.dag, x, u) && RightFirstBefore(q.dag, x, y) && !RightFirstBefore(q.dag, y, x)
  {
    RedirectShape(p, n, j);
    var m := |p.dag[n]| - 1;
    var u := Stage(n - 1, j);
    assert Started(p, u) && HasPoint(p, u) && Has(p.dag, u);
    RedirectKeepsLastReaching(p, n, j, n, x);
    LastReachingComposes(p.dag, n - 1, n, x);
    LastReachingIsStarted(p, n, x);
    var r := LastReaching(p.dag, n, x);
    assert ShapeAt(p, n);
    assert r < m;
    FrontierIsMonotone(p.dag[n], |p.cont[n - 1]|, r, m - 1);
    LastReachingInRange(p.dag, n - 1, Stage(n, r));
  }

  lemma {:induction false} LastReachingIsStarted(p: Placement, a: nat, y: Stage)
    requires PlacementInv(p) && HasPoint(p, y) && a <= y.iter
    ensures Has(p.dag, y) && LastReaching(p.dag, a, y) < |p.node[a]|
    ensures a < y.iter ==> LastReaching(p.dag, a, y) < |p.cont[a]|
    decreases y.iter
  {
    if a < y.iter {
      FrontierIsStarted(p, y);
      var u := Stage(y.iter - 1, Frontier(p.dag[y.iter], y.index));
      assert HasPoint(p, u) && Has(p.dag, u);
      LastReachingIsStarted(p, a, u);
    }
  }

  lemma RedirectKeepsInPlace(p: Placement, n: nat, j: nat, x: Stage, y: Stage)
    requires MayRedirect(p, n, j) && HasPoint(p, x) && HasPoint(p, y)
    requires x != Stage(n, |p.dag[n]| - 1) && y != Stage(n, |p.dag[n]| - 1)
    ensures var q := Redirect(p, n, j);
            HasPoint(q, x) && HasPoint(q, y) && Has(q.dag, x) && Has(q.dag, y) && InPlace(q, x, y)
  {
    RedirectShape(p, n, j);
    var q := Redirect(p, n, j);
    assert InPlace(p, x, y);
    assert NodeOf(q, x) == NodeOf(p, x) && NodeOf(q, y) == NodeOf(p, y);
    if x.iter <= y.iter {
      RedirectKeepsLastReaching(p, n, j, x.iter, y);
    } else {
      RedirectKeepsLastReaching(p, n, j, y.iter, x);
    }
  }

  lemma RedirectKeepsUse(p: Placement, n: nat, j: nat, u: Stage, z: Stage)
    requires MayRedirect(p, n, j) && Started(p, u) && HasPoint(p, z)
    ensures var q := Redirect(p, n, j);
            Started(q, u) && HasPoint(q, z) && Has(q.dag, z) && ContUsedOnce(q, u, z)
  {
    RedirectShape(p, n, j);
    var q, m := Redirect(p, n, j), |p.dag[n]| - 1;
    assert ContOf(q, u) == ContOf(p, u);
    if z == Stage(n, m) {
      assert NodeOf(q, z) == ContOf(p, Stage(n - 1, j));
      if u != Stage(n - 1, j) { ContsDiffer(p, u, Stage(n - 1, j)); }
    } else {
      assert ContUsedOnce(p, u, z) && NodeOf(q, z) == NodeOf(p, z);
      assert ShapeAt(p, z.iter);
      FrontierOfPrefix(p.dag[z.iter], q.dag[z.iter], z.index);
    }
  }

  lemma RedirectKeepsInv(p: Placement, n: nat, j: nat)
    requires MayRedirect(p, n, j)
    ensures PlacementInv(Redirect(p, n, j))
  {
    RedirectShape(p, n, j);
    var q, y := Redirect(p, n, j), Stage(n, |p.dag[n]| - 1);
    forall x, z | HasPoint(q, x) && HasPoint(q, z) ensures InPlace(q, x, z) {
      if x != y && z != y {
        RedirectKeepsInPlace(p, n, j, x, z);
      } else if x != z {
        RedirectedPlace(p, n, j, if x == y then z else x);
      }
    }
    forall u | Started(q, u) ensures HasPoint(q, u) && Adjacent(q.list, NodeOf(q, u), ContOf(q, u)) {
      assert Started(p, u) && HasPoint(p, u) && ShapeAt(p, u.iter);
      assert NodeOf(q, u) == NodeOf(p, u) && ContOf(q, u) == ContOf(p, u);
    }
    forall u, z | Started(q, u) && HasPoint(q, z) ensures ContUsedOnce(q, u, z) {
      RedirectKeepsUse(p, n, j, u, z);
    }
  }

  // ------------------------------------------------------------------- entering

  ghost predicate MayEnter(p: Placement, n: nat, t: seq<Node>) {
    PlacementInv(p) && n < |p.dag| && |p.node[n]| > 0 && TwoBehind(p.list, t, p.node[n][|p.node[n]| - 1])
  }

  lemma EnterShape(p: Placement, n: nat, t: seq<Node>)
    requires MayEnter(p, n, t)
    ensures ShapeAt(p, n) && Shape(Enter(p, n, t)) && Grows(p.dag, Enter(p, n, t).dag)
    ensures forall x :: HasPoint(Enter(p, n, t), x) <==> HasPoint(p, x) || x == Stage(n, |p.node[n]|)
    ensures forall x :: Started(Enter(p, n, t), x) <==> Started(p, x) || x == Stage(n, |p.node[n]| - 1)
    ensures forall x | HasPoint(Enter(p, n, t), x) :: Has(Enter(p, n, t).dag, x)
    ensures forall x | HasPoint(p, x) :: NodeOf(Enter(p, n, t), x) == NodeOf(p, x)
    ensures forall x | Started(p, x) :: ContOf(Enter(p, n, t), x) == ContOf(p, x)
  {
    var q := Enter(p, n, t);
    assert ShapeAt(p, n);
    forall i: nat | i < |q.dag| ensures ShapeAt(q, i) && RowFits(q.dag, i) {
      assert ShapeAt(p, i) && RowFits(p.dag, i);
      forall k: nat | 1 <= k < |q.dag[i]| ensures NotBehind(q.dag[i], k) {
        if k < |p.dag[i]| {
          assert NotBehind(p.dag[i], k);
          FrontierStays(p.dag[i], q.dag[i], k - 1);
        }
      }
    }
    forall x | HasPoint(q, x) ensures NodeOf(q, x) < |q.list| && Has(q.dag, x) {
      assert ShapeAt(q, x.iter);
      if HasPoint(p, x) { assert NodeOf(q, x) == NodeOf(p, x); }
    }
    forall x | Started(q, x) ensures ContOf(q, x) < |q.list| {
      if Started(p, x) { assert ContOf(q, x) == ContOf(p, x); }
    }
  }

  /** The new pending stage comes right behind the stage that was pending before. */
  lemma EnteredOrder(p: Placement, n: nat, t: seq<Node>, x: Stage)
    requires MayEnter(p, n, t) && HasPoint(p, x)
    ensures var q, y, v := Enter(p, n, t), Stage(n, |p.node[n]| - 1), Stage(n, |p.node[n]|);
            && Has(p.dag, x) && Has(p.dag, y) && Has(q.dag, x) && Has(q.dag, v) && x != v
            && (RightFirstBefore(q.dag, x, v) <==> x == y || RightFirstBefore(p.dag, x, y))
  {
    EnterShape(p, n, t);
    var q, m := Enter(p, n, t), |p.node[n]| - 1;
    var y := Stage(n, m);
    assert ShapeAt(p, x.iter) && HasPoint(p, y);
    if x.iter < n {
      assert q.dag[n][m + 1] == 0;
      assert Frontier(q.dag[n], m + 1) == Frontier(q.dag[n], m);
      LastReachingStays(p.dag, q.dag, x.iter, y);
    } else if x.iter > n {
      LastReachingIsStarted(p, n, x);
      LastReachingStays(p.dag, q.dag, n, x);
    }
  }

  lemma EnteredPlace(p: Placement, n: nat, t: seq<Node>, x: Stage)
    requires MayEnter(p, n, t) && HasPoint(p, x)
    ensures var q, v := Enter(p, n, t), Stage(n, |p.node[n]|);
            && HasPoint(q, x) && HasPoint(q, v) && Has(q.dag, x) && Has(q.dag, v)
            && InPlace(q, x, v) && InPlace(q, v, x)
  {
    EnterShape(p, n, t);
    EnteredOrder(p, n, t, x);
    var q, y, v := Enter(p, n, t), Stage(n, |p.node[n]| - 1), Stage(n, |p.node[n]|);
    BeforeIsTotal(q.dag, x, v);
    assert HasPoint(p, y) && NodeOf(q, v) == |p.list| + 1;
    assert ShiftedAt(p.list, t, NodeOf(p, y), NodeOf(p, x));
    if x != y {
      PlacesAreRightFirst(p, x, y);
    }
  }

  lemma EnterKeepsAdjacent(p: Placement, n: nat, t: seq<Node>, u: Stage)
    requires MayEnter(p, n, t) && Started(Enter(p, n, t), u)
    ensures var q := Enter(p, n, t); HasPoint(q, u) && Adjacent(q.list, NodeOf(q, u), ContOf(q, u))
  {
    EnterShape(p, n, t);
    var q, y := Enter(p, n, t), Stage(n, |p.node[n]| - 1);
    assert ShiftedAt(p.list, t, NodeOf(p, y), NodeOf(p, y));
    if u != y {
      assert Started(p, u) && HasPoint(p, u) && Adjacent(p.list, NodeOf(p, u), ContOf(p, u));
      PlacesAreRightFirst(p, u, y);
      assert ShiftedAt(p.list, t, NodeOf(p, y), NodeOf(p, u));
      assert ShiftedAt(p.list, t, NodeOf(p, y), ContOf(p, u));
    }
  }

  lemma EnterKeepsUse(p: Placement, n: nat, t: seq<Node>, u: Stage, z: Stage)
    requires MayEnter(p, n, t) && Started(Enter(p, n, t), u) && HasPoint(Enter(p, n, t), z)
    ensures var q := Enter(p, n, t); Has(q.dag, z) && ContUsedOnce(q, u, z)
  {
    EnterShape(p, n, t);
    var q := Enter(p, n, t);
    if Started(p, u) && HasPoint(p, z) {
      assert ContUsedOnce(p, u, z) && ShapeAt(p, z.iter);
      FrontierStays(p.dag[z.iter], q.dag[z.iter], z.index);
    }
  }

  lemma EnterKeepsInPlace(p: Placement, n: nat, t: seq<Node>, x: Stage, z: Stage)
    requires MayEnter(p, n, t) && HasPoint(p, x) && HasPoint(p, z)
    ensures var q := Enter(p, n, t);
            HasPoint(q, x) && HasPoint(q, z) && Has(q.dag, x) && Has(q.dag, z) && InPlace(q, x, z)
  {
    EnterShape(p, n, t);
    assert InPlace(p, x, z);
    SameOrderIfGrown(p.dag, Enter(p, n, t).dag, x, z);
    assert ShiftedAt(p.list, t, p.node[n][|p.node[n]| - 1], NodeOf(p, x));
    assert ShiftedAt(p.list, t, p.node[n][|p.node[n]| - 1], NodeOf(p, z));
  }

  lemma EnterKeepsInv(p: Placement, n: nat, t: seq<Node>)
    requires MayEnter(p, n, t)
    ensures PlacementInv(Enter(p, n, t))
  {
    EnterShape(p, n, t);
    var q, v := Enter(p, n, t), Stage(n, |p.node[n]|);
    forall x, z | HasPoint(q, x) && HasPoint(q, z) ensures InPlace(q, x, z) {
      if x != v && z != v {
        EnterKeepsInPlace(p, n, t, x, z);
      } else if x != z {
        EnteredPlace(p, n, t, if x == v then z else x);
      }
    }
    forall u | Started(q, u) ensures HasPoint(q, u) && Adjacent(q.list, NodeOf(q, u), ContOf(q, u)) {
      EnterKeepsAdjacent(p, n, t, u);
    }
    forall u, z | Started(q, u) && HasPoint(q, z) ensures ContUsedOnce(q, u, z) {
      EnterKeepsUse(p, n, t, u, z);
    }
  }
}
