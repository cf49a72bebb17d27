/** The down-first list lists the stages in the order of a serial run: iteration
    by iteration, and by stage within an iteration. A last row with a single
    place stands for stage 0 of the iteration that would start next. */
module SerialOrder {
  import opened OrderList
  import opened PipelineDag

  datatype SerialPlaces = SerialPlaces(node: seq<seq<Node>>, list: seq<Node>)

  predicate HasPlace(p: SerialPlaces, x: Stage) {
    x.iter < |p.node| && x.index < |p.node[x.iter]|
  }

  function PlaceOf(p: SerialPlaces, x: Stage): Node
    requires HasPlace(p, x)
  {
    p.node[x.iter][x.index]
  }

  predicate SerialBefore(x: Stage, y: Stage) {
    x.iter < y.iter || (x.iter == y.iter && x.index < y.index)
  }

  ghost predicate InSerialPlace(p: SerialPlaces, x: Stage, y: Stage)
    requires HasPlace(p, x) && HasPlace(p, y)
  {
    SerialBefore(x, y) ==> Precedes(p.list, PlaceOf(p, x), PlaceOf(p, y))
  }

  ghost predicate SerialInv(p: SerialPlaces) {
    && IsOrder(p.list)
    && |p.node| > 0 && |p.node[|p.node| - 1]| == 1
    && (forall i | 0 <= i < |p.node| - 1 :: |p.node[i]| >= 2)
    && (forall x | HasPlace(p, x) :: PlaceOf(p, x) < |p.list|)
    && (forall x, y {:trigger InSerialPlace(p, x, y)} | HasPlace(p, x) && HasPlace(p, y) :: InSerialPlace(p, x, y))
  }

  /** The next iteration starts; t is the list with the down and the right
      continuation of its stage 0. */
  function OpenSerialRow(p: SerialPlaces, t: seq<Node>): SerialPlaces
    requires |p.node| > 0 && |p.node[|p.node| - 1]| == 1
  {
    var n := |p.node| - 1;
    SerialPlaces(p.node[..n] + [[p.node[n][0], |p.list|]] + [[|p.list| + 1]], t)
  }

  /** The pending stage of iteration n starts. */
  function EnterSerial(p: SerialPlaces, n: nat, t: seq<Node>): SerialPlaces
    requires n < |p.node|
  {
    SerialPlaces(p.node[n := p.node[n] + [|p.list|]], t)
  }

  lemma PlacesAreSerial(p: SerialPlaces, x: Stage, y: Stage)
    requires SerialInv(p) && HasPlace(p, x) && HasPlace(p, y)
    ensures Precedes(p.list, PlaceOf(p, x), PlaceOf(p, y)) <==> SerialBefore(x, y)
    ensures x != y ==> PlaceOf(p, x) != PlaceOf(p, y)
  {
    assert InSerialPlace(p, x, y) && InSerialPlace(p, y, x);
  }

  ghost predicate MayOpen(p: SerialPlaces, t: seq<Node>) {
    SerialInv(p) && TwoBehind(p.list, t, p.node[|p.node| - 1][0])
  }

  lemma OpenedShape(p: SerialPlaces, t: seq<Node>)
    requires MayOpen(p, t)
    ensures var n, q := |p.node| - 1, OpenSerialRow(p, t);
            && HasPlace(p, Stage(n, 0))
            && (forall x :: HasPlace(q, x) <==> HasPlace(p, x) || x == Stage(n, 1) || x == Stage(n + 1, 0))
            && (forall x | HasPlace(p, x) :: PlaceOf(q, x) == PlaceOf(p, x))
            && PlaceOf(q, Stage(n, 1)) == |p.list| && PlaceOf(q, Stage(n + 1, 0)) == |p.list| + 1
  {
    assert HasPlace(p, Stage(|p.node| - 1, 0));
  }

  lemma OpenedPlaces(p: SerialPlaces, t: seq<Node>, x: Stage, y: Stage)
    requires MayOpen(p, t) && HasPlace(OpenSerialRow(p, t), x) && HasPlace(OpenSerialRow(p, t), y)
    ensures InSerialPlace(OpenSerialRow(p, t), x, y)
  {
    OpenedShape(p, t);
    var c := Stage(|p.node| - 1, 0);
    assert ShiftedAt(p.list, t, PlaceOf(p, c), PlaceOf(p, c));
    if HasPlace(p, x) {
      assert ShiftedAt(p.list, t, PlaceOf(p, c), PlaceOf(p, x));
      PlacesAreSerial(p, x, c);
      if HasPlace(p, y) {
        assert ShiftedAt(p.list, t, PlaceOf(p, c), PlaceOf(p, y));
        PlacesAreSerial(p, x, y);
      }
    }
  }

  lemma OpenSerialRowKeepsInv(p: SerialPlaces, t: seq<Node>)
    requires MayOpen(p, t)
    ensures SerialInv(OpenSerialRow(p, t))
  {
    OpenedShape(p, t);
    var q := OpenSerialRow(p, t);
    forall x, y | HasPlace(q, x) && HasPlace(q, y) ensures InSerialPlace(q, x, y) {
      OpenedPlaces(p, t, x, y);
    }
  }

  ghost predicate MayEnterSerial(p: SerialPlaces, n: nat, t: seq<Node>) {
    SerialInv(p) && n < |p.node| - 1 && TwoBehind(p.list, t, p.node[n][|p.node[n]| - 1])
  }

  lemma EnteredShape(p: SerialPlaces, n: nat, t: seq<Node>)
    requires MayEnterSerial(p, n, t)
    ensures var m, q := |p.node[n]| - 1, EnterSerial(p, n, t);
            && HasPlace(p, Stage(n, m))
            && (forall x :: HasPlace(q, x) <==> HasPlace(p, x) || x == Stage(n, m + 1))
            && (forall x | HasPlace(p, x) :: PlaceOf(q, x) == PlaceOf(p, x))
            && PlaceOf(q, Stage(n, m + 1)) == |p.list|
  {
    assert HasPlace(p, Stage(n, |p.node[n]| - 1));
  }

  lemma EnteredPlaces(p: SerialPlaces, n: nat, t: seq<Node>, x: Stage, y: Stage)
    requires MayEnterSerial(p, n, t) && HasPlace(EnterSerial(p, n, t), x) && HasPlace(EnterSerial(p, n, t), y)
    ensures InSerialPlace(EnterSerial(p, n, t), x, y)
  {
    EnteredShape(p, n, t);
    var c := Stage(n, |p.node[n]| - 1);
    if HasPlace(p, x) {
      assert ShiftedAt(p.list, t, PlaceOf(p, c), PlaceOf(p, x));
      PlacesAreSerial(p, x, c);
    }
    if HasPlace(p, y) {
      assert ShiftedAt(p.list, t, PlaceOf(p, c), PlaceOf(p, y));
      PlacesAreSerial(p, c, y);
    }
    if HasPlace(p, x) && HasPlace(p, y) {
      PlacesAreSerial(p, x, y);
    }
  }

  lemma EnterSerialKeepsInv(p: SerialPlaces, n: nat, t: seq<Node>)
    requires MayEnterSerial(p, n, t)
    ensures SerialInv(EnterSerial(p, n, t))
  {
    EnteredShape(p, n, t);
    var q := EnterSerial(p, n, t);
    forall x, y | HasPlace(q, x) && HasPlace(q, y) ensures InSerialPlace(q, x, y) {
      EnteredPlaces(p, n, t, x, y);
    }
  }
}
