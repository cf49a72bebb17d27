/** The stage lists and the two order lists of a pipeline, and the three ways a
    stage is added to them. */
module StageOrders {
  import opened OrderList
  import opened PipelineDag
  import opened LeftDependency
  import opened RightFirstOrder
  import opened SerialOrder

  datatype Order = Order(current: Node, rightCont: Node, downCont: Node)

  datatype StageFrame = StageFrame(num: int, waits: bool, left: nat, rightFirst: Order, downFirst: Order)

  /** One iteration's stage list with the cursor of its left-dependency scans. */
  datatype StageList = StageList(frames: seq<StageFrame>, cursor: nat)

  datatype Orders = Orders(rows: seq<StageList>, hebrew: seq<Node>, english: seq<Node>)

  predicate HasFrame(o: Orders, x: Stage) {
    x.iter < |o.rows| && x.index < |o.rows[x.iter].frames|
  }

  function FrameOf(o: Orders, x: Stage): StageFrame
    requires HasFrame(o, x)
  {
    o.rows[x.iter].frames[x.index]
  }

  function FrameNums(frames: seq<StageFrame>): (ns: seq<int>)
    ensures |ns| == |frames| && forall k {:trigger ns[k]} | 0 <= k < |frames| :: ns[k] == frames[k].num
  {
    seq(|frames|, k requires 0 <= k < |frames| => frames[k].num)
  }

  function FrameLefts(frames: seq<StageFrame>): (ls: seq<nat>)
    ensures |ls| == |frames| && forall k {:trigger ls[k]} | 0 <= k < |frames| :: ls[k] == frames[k].left
  {
    seq(|frames|, k requires 0 <= k < |frames| => frames[k].left)
  }

  /** The dag recorded by the stage lists. */
  function StageDag(o: Orders): (d: Lefts)
    ensures |d| == |o.rows| && forall i {:trigger d[i]} | 0 <= i < |d| :: d[i] == FrameLefts(o.rows[i].frames)
  {
    seq(|o.rows|, i requires 0 <= i < |o.rows| => FrameLefts(o.rows[i].frames))
  }

  // ------------------------------------------- the places of the two lists

  function RightPlaces(frames: seq<StageFrame>): (ps: seq<Node>)
    requires |frames| > 0
    ensures |ps| == |frames| + 1 && ps[|frames|] == frames[|frames| - 1].rightFirst.downCont
    ensures forall k {:trigger ps[k]} | 0 <= k < |frames| :: ps[k] == frames[k].rightFirst.current
  {
    seq(|frames|, k requires 0 <= k < |frames| => frames[k].rightFirst.current) + [frames[|frames| - 1].rightFirst.downCont]
  }

  function RightConts(frames: seq<StageFrame>): (cs: seq<Node>)
    ensures |cs| == |frames| && forall k {:trigger cs[k]} | 0 <= k < |frames| :: cs[k] == frames[k].rightFirst.rightCont
  {
    seq(|frames|, k requires 0 <= k < |frames| => frames[k].rightFirst.rightCont)
  }

  function DownPlaces(frames: seq<StageFrame>): (ps: seq<Node>)
    requires |frames| > 0
    ensures |ps| == |frames| + 1 && ps[|frames|] == frames[|frames| - 1].downFirst.downCont
    ensures forall k {:trigger ps[k]} | 0 <= k < |frames| :: ps[k] == frames[k].downFirst.current
  {
    seq(|frames|, k requires 0 <= k < |frames| => frames[k].downFirst.current) + [frames[|frames| - 1].downFirst.downCont]
  }

  predicate NoEmptyRow(rows: seq<StageList>) {
    forall i | 0 <= i < |rows| :: |rows[i].frames| > 0
  }

  function RightPlacement(o: Orders): Placement
    requires NoEmptyRow(o.rows)
  {
    Placement(seq(|o.rows|, i requires 0 <= i < |o.rows| => FrameLefts(o.rows[i].frames) + [0]),
              seq(|o.rows|, i requires 0 <= i < |o.rows| => RightPlaces(o.rows[i].frames)),
              seq(|o.rows|, i requires 0 <= i < |o.rows| => RightConts(o.rows[i].frames)),
              o.hebrew)
  }

  function NextIterationPlace(o: Orders): Node
    requires NoEmptyRow(o.rows)
  {
    if |o.rows| == 0 then 0 else o.rows[|o.rows| - 1].frames[0].downFirst.rightCont
  }

  function DownPlacement(o: Orders): SerialPlaces
    requires NoEmptyRow(o.rows)
  {
    SerialPlaces(seq(|o.rows|, i requires 0 <= i < |o.rows| => DownPlaces(o.rows[i].frames)) + [[NextIterationPlace(o)]],
                 o.english)
  }

  ghost predicate CursorAt(o: Orders, i: nat)
    requires i < |o.rows| && NoEmptyRow(o.rows)
  {
    && o.rows[i].frames[0].left == 0
    && o.rows[i].cursor == Frontier(FrameLefts(o.rows[i].frames), |o.rows[i].frames| - 1) + 1
  }

  ghost predicate Inv(o: Orders) {
    && NoEmptyRow(o.rows)
    && PlacementInv(RightPlacement(o))
    && SerialInv(DownPlacement(o))
    && forall i: nat | i < |o.rows| :: CursorAt(o, i)
  }

  // ----------------------------------------------------------- adding stages

  /** createOrder: the right continuation comes right behind the stage in the
      right-first list and last in the down-first list. */
  function NewFrame(o: Orders, num: int, waits: bool, left: nat, right: Node, down: Node): StageFrame {
    StageFrame(num, waits, left, Order(right, |o.hebrew|, |o.hebrew| + 1), Order(down, |o.english| + 1, |o.english|))
  }

  const EMPTY := Orders([], [0], [0])

  function FirstRight(o: Orders): Node
    requires NoEmptyRow(o.rows)
  {
    if |o.rows| == 0 then 0 else o.rows[|o.rows| - 1].frames[0].rightFirst.rightCont
  }

  /** A new iteration, when the lists have become h and e. */
  function WithIteration(o: Orders, h: seq<Node>, e: seq<Node>): Orders
    requires NoEmptyRow(o.rows)
  {
    Orders(o.rows + [StageList([NewFrame(o, 0, false, 0, FirstRight(o), NextIterationPlace(o))], 1)], h, e)
  }

  ghost function AddFirst(o: Orders): Orders
    requires Inv(o)
  {
    InvBounds(o);
    WithIteration(o, InsertTwo(o.hebrew, FirstRight(o)), InsertTwo(o.english, NextIterationPlace(o)))
  }

  /** The numbers the scan of iteration n looks at; the first iteration scans nothing. */
  function LeftNums(o: Orders, n: nat): seq<int>
    requires n < |o.rows|
  {
    if n == 0 then [0] else FrameNums(o.rows[n - 1].frames)
  }

  function ScanFor(o: Orders, n: nat, num: int, waits: bool): ScanResult
    requires n < |o.rows|
  {
    if waits then Scan(LeftNums(o, n), o.rows[n].cursor, num, 0) else ScanResult(0, o.rows[n].cursor)
  }

  ghost predicate LeftIsThere(o: Orders, n: nat, left: nat) {
    n < |o.rows| && NoEmptyRow(o.rows) && (left != 0 ==> n > 0 && HasFrame(o, Stage(n - 1, left)))
  }

  function StageRight(o: Orders, n: nat, left: nat): Node
    requires LeftIsThere(o, n, left)
  {
    if left == 0 then o.rows[n].frames[|o.rows[n].frames| - 1].rightFirst.downCont
    else o.rows[n - 1].frames[left].rightFirst.rightCont
  }

  function StageDown(o: Orders, n: nat): Node
    requires n < |o.rows| && NoEmptyRow(o.rows)
  {
    o.rows[n].frames[|o.rows[n].frames| - 1].downFirst.downCont
  }

  /** A further stage of iteration n, when its scan ended in r and the lists have become h and e. */
  function WithStage(o: Orders, n: nat, num: int, waits: bool, r: ScanResult, h: seq<Node>, e: seq<Node>): Orders
    requires LeftIsThere(o, n, r.left)
  {
    var f := NewFrame(o, num, waits, r.left, StageRight(o, n, r.left), StageDown(o, n));
    Orders(o.rows[n := StageList(o.rows[n].frames + [f], r.cursor)], h, e)
  }

  ghost function AddStage(o: Orders, n: nat, num: int, waits: bool): Orders
    requires Inv(o) && n < |o.rows|
  {
    var r := ScanFor(o, n, num, waits);
    ScanInBounds(o, n, num, waits);
    PlacesInBounds(o, n, r.left);
    WithStage(o, n, num, waits, r, InsertTwo(o.hebrew, StageRight(o, n, r.left)), InsertTwo(o.english, StageDown(o, n)))
  }

  // --------------------------------------------------------- well-definedness

  lemma InvBounds(o: Orders)
    requires Inv(o)
    ensures IsOrder(o.hebrew) && IsOrder(o.english)
    ensures NextIterationPlace(o) < |o.english|
    ensures FirstRight(o) < |o.hebrew|
    ensures forall x | HasFrame(o, x) ::
              && FrameOf(o, x).rightFirst.current < |o.hebrew| && FrameOf(o, x).rightFirst.rightCont < |o.hebrew|
              && FrameOf(o, x).downFirst.current < |o.english|
    ensures forall i {:trigger o.rows[i]} | 0 <= i < |o.rows| ::
              && o.rows[i].frames[|o.rows[i].frames| - 1].rightFirst.downCont < |o.hebrew|
              && o.rows[i].frames[|o.rows[i].frames| - 1].downFirst.downCont < |o.english|
  {
    var p, s := RightPlacement(o), DownPlacement(o);
    assert HasPlace(s, Stage(|o.rows|, 0));
    assert PlaceOf(s, Stage(|o.rows|, 0)) < |o.english|;
    forall x | HasFrame(o, x)
      ensures && FrameOf(o, x).rightFirst.current < |o.hebrew| && FrameOf(o, x).rightFirst.rightCont < |o.hebrew|
              && FrameOf(o, x).downFirst.current < |o.english|
    {
      assert HasPoint(p, x) && NodeOf(p, x) == FrameOf(o, x).rightFirst.current;
      assert Started(p, x) && ContOf(p, x) == FrameOf(o, x).rightFirst.rightCont;
      assert HasPlace(s, x) && PlaceOf(s, x) == FrameOf(o, x).downFirst.current;
    }
    if |o.rows| > 0 {
      assert HasFrame(o, Stage(|o.rows| - 1, 0));
      assert FrameOf(o, Stage(|o.rows| - 1, 0)).rightFirst.rightCont < |o.hebrew|;
    }
    forall i | 0 <= i < |o.rows|
      ensures o.rows[i].frames[|o.rows[i].frames| - 1].rightFirst.downCont < |o.hebrew|
      ensures o.rows[i].frames[|o.rows[i].frames| - 1].downFirst.downCont < |o.english|
    {
      var v := Stage(i, |o.rows[i].frames|);
      assert HasPoint(p, v) && NodeOf(p, v) == o.rows[i].frames[|o.rows[i].frames| - 1].rightFirst.downCont;
      assert HasPlace(s, v) && PlaceOf(s, v) == o.rows[i].frames[|o.rows[i].frames| - 1].downFirst.downCont;
    }
  }

  lemma CursorInBounds(o: Orders, n: nat)
    requires Inv(o) && n < |o.rows|
    ensures 1 <= o.rows[n].cursor <= |LeftNums(o, n)|
  {
    var p := RightPlacement(o);
    assert CursorAt(o, n) && ShapeAt(p, n);
    var row, last := FrameLefts(o.rows[n].frames), |o.rows[n].frames| - 1;
    assert p.dag[n] == row + [0];
    FrontierOfPrefix(row, p.dag[n], last);
    FrontierIsMonotone(p.dag[n], if n == 0 then 1 else |p.cont[n - 1]|, last, last);
    if n > 0 { assert |p.cont[n - 1]| == |o.rows[n - 1].frames|; }
  }

  lemma ScanInBounds(o: Orders, n: nat, num: int, waits: bool)
    requires Inv(o) && n < |o.rows|
    ensures var r := ScanFor(o, n, num, waits);
            && LeftIsThere(o, n, r.left)
            && o.rows[n].cursor <= r.cursor <= |LeftNums(o, n)|
            && r.left == (if r.cursor > o.rows[n].cursor then r.cursor - 1 else 0)
  {
    CursorInBounds(o, n);
    ScanMovesForward(LeftNums(o, n), o.rows[n].cursor, num, 0);
    if n > 0 { assert |LeftNums(o, n)| == |o.rows[n - 1].frames|; }
  }

  lemma PlacesInBounds(o: Orders, n: nat, left: nat)
    requires Inv(o) && LeftIsThere(o, n, left)
    ensures IsOrder(o.hebrew) && IsOrder(o.english)
    ensures StageRight(o, n, left) < |o.hebrew| && StageDown(o, n) < |o.english|
  {
    InvBounds(o);
    assert o.rows[n].frames[|o.rows[n].frames| - 1].rightFirst.downCont < |o.hebrew|;
    if left != 0 { assert FrameOf(o, Stage(n - 1, left)).rightFirst.rightCont < |o.hebrew|; }
  }

  lemma FirstPlacesInBounds(o: Orders)
    requires Inv(o)
    ensures NoEmptyRow(o.rows) && IsOrder(o.hebrew) && IsOrder(o.english)
    ensures FirstRight(o) < |o.hebrew| && NextIterationPlace(o) < |o.english|
  {
    InvBounds(o);
  }

  // ------------------------------------------------------ every addition is sound

  lemma IterationPictures(o: Orders, h: seq<Node>, e: seq<Node>)
    requires NoEmptyRow(o.rows)
    ensures NoEmptyRow(WithIteration(o, h, e).rows)
    ensures |o.rows| == 0 || |RightPlacement(o).cont[|o.rows| - 1]| > 0
    ensures RightPlacement(WithIteration(o, h, e)) == Enter(OpenRow(RightPlacement(o)), |o.rows|, h)
    ensures DownPlacement(WithIteration(o, h, e)) == OpenSerialRow(DownPlacement(o), e)
  {
    var o', n := WithIteration(o, h, e), |o.rows|;
    var p', q := RightPlacement(o'), Enter(OpenRow(RightPlacement(o)), n, h);
    var s', t := DownPlacement(o'), OpenSerialRow(DownPlacement(o), e);
    assert p'.dag[n] == q.dag[n];
    assert p'.node[n] == q.node[n];
    assert p'.cont[n] == q.cont[n];
    assert s'.node[n] == t.node[n];
    assert s'.node[n + 1] == t.node[n + 1];
    assert p'.dag == q.dag;
    assert p'.node == q.node;
    assert p'.cont == q.cont;
    assert s'.node == t.node;
  }

  lemma IterationKeepsPlacement(o: Orders, h: seq<Node>)
    requires Inv(o) && TwoBehind(o.hebrew, h, FirstRight(o))
    ensures |o.rows| == 0 || |RightPlacement(o).cont[|o.rows| - 1]| > 0
    ensures PlacementInv(Enter(OpenRow(RightPlacement(o)), |o.rows|, h))
  {
    OpenRowKeepsInv(RightPlacement(o));
    EnterKeepsInv(OpenRow(RightPlacement(o)), |o.rows|, h);
  }

  lemma IterationKeepsSerial(o: Orders, e: seq<Node>)
    requires Inv(o) && TwoBehind(o.english, e, NextIterationPlace(o))
    ensures SerialInv(OpenSerialRow(DownPlacement(o), e))
  {
    OpenSerialRowKeepsInv(DownPlacement(o), e);
  }

  lemma IterationKeepsInv(o: Orders, h: seq<Node>, e: seq<Node>)
    requires Inv(o)
    requires TwoBehind(o.hebrew, h, FirstRight(o)) && TwoBehind(o.english, e, NextIterationPlace(o))
    ensures Inv(WithIteration(o, h, e))
  {
    IterationPictures(o, h, e);
    IterationKeepsPlacement(o, h);
    IterationKeepsSerial(o, e);
    var o' := WithIteration(o, h, e);
    forall i: nat | i < |o'.rows| ensures CursorAt(o', i) {
      if i < |o.rows| { assert CursorAt(o, i); }
    }
  }

  /** Starting an iteration keeps the lists in order and moves no node. */
  lemma AddFirstKeepsInv(o: Orders)
    requires Inv(o)
    ensures Inv(AddFirst(o))
    ensures Extends(o.hebrew, AddFirst(o).hebrew) && Extends(o.english, AddFirst(o).english)
  {
    InvBounds(o);
    InsertTwoIsTwoBehind(o.hebrew, FirstRight(o));
    InsertTwoIsTwoBehind(o.english, NextIterationPlace(o));
    InsertTwoExtends(o.hebrew, FirstRight(o));
    InsertTwoExtends(o.english, NextIterationPlace(o));
    IterationKeepsInv(o, InsertTwo(o.hebrew, FirstRight(o)), InsertTwo(o.english, NextIterationPlace(o)));
  }

  /** The right-first placement in which the pending stage of iteration n has its left dependency. */
  ghost function Aimed(o: Orders, n: nat, left: nat): Placement
    requires LeftIsThere(o, n, left)
  {
    if left == 0 then RightPlacement(o) else Redirect(RightPlacement(o), n, left)
  }

  lemma StagePictures(o: Orders, n: nat, num: int, waits: bool, r: ScanResult, h: seq<Node>, e: seq<Node>)
    requires LeftIsThere(o, n, r.left)
    ensures NoEmptyRow(WithStage(o, n, num, waits, r, h, e).rows)
    ensures RightPlacement(WithStage(o, n, num, waits, r, h, e)) == Enter(Aimed(o, n, r.left), n, h)
    ensures DownPlacement(WithStage(o, n, num, waits, r, h, e)) == EnterSerial(DownPlacement(o), n, e)
  {
    var o' := WithStage(o, n, num, waits, r, h, e);
    var p', q := RightPlacement(o'), Enter(Aimed(o, n, r.left), n, h);
    var s', t := DownPlacement(o'), EnterSerial(DownPlacement(o), n, e);
    assert p'.dag[n] == q.dag[n];
    assert p'.node[n] == q.node[n];
    assert p'.cont[n] == q.cont[n];
    assert s'.node[n] == t.node[n];
    assert p'.dag == q.dag;
    assert p'.node == q.node;
    assert p'.cont == q.cont;
    assert s'.node == t.node;
  }

  lemma StageKeepsCursor(o: Orders, n: nat, num: int, waits: bool, h: seq<Node>, e: seq<Node>, i: nat)
    requires Inv(o) && n < |o.rows| && i < |o.rows|
    ensures var r := ScanFor(o, n, num, waits);
            LeftIsThere(o, n, r.left) && NoEmptyRow(WithStage(o, n, num, waits, r, h, e).rows)
            && CursorAt(WithStage(o, n, num, waits, r, h, e), i)
  {
    ScanInBounds(o, n, num, waits);
    assert CursorAt(o, i);
    var o' := WithStage(o, n, num, waits, ScanFor(o, n, num, waits), h, e);
    if i == n {
      var ls, ls' := FrameLefts(o.rows[n].frames), FrameLefts(o'.rows[n].frames);
      assert ls <= ls';
      FrontierStays(ls, ls', |ls| - 1);
    }
  }

  lemma StageMayRedirect(o: Orders, n: nat, num: int, waits: bool)
    requires Inv(o) && n < |o.rows| && ScanFor(o, n, num, waits).left != 0
    ensures MayRedirect(RightPlacement(o), n, ScanFor(o, n, num, waits).left)
  {
    ScanInBounds(o, n, num, waits);
    assert CursorAt(o, n);
    var p, k := RightPlacement(o), |o.rows[n].frames|;
    FrontierOfPrefix(FrameLefts(o.rows[n].frames), p.dag[n], k - 1);
  }

  lemma AimedKeepsInv(o: Orders, n: nat, num: int, waits: bool)
    requires Inv(o) && n < |o.rows|
    ensures var left := ScanFor(o, n, num, waits).left;
            && LeftIsThere(o, n, left) && PlacementInv(Aimed(o, n, left))
            && |Aimed(o, n, left).dag| == |Aimed(o, n, left).node| == |o.rows|
            && |Aimed(o, n, left).node[n]| == |o.rows[n].frames| + 1
            && Aimed(o, n, left).node[n][|o.rows[n].frames|] == StageRight(o, n, left)
            && Aimed(o, n, left).list == o.hebrew
  {
    var left := ScanFor(o, n, num, waits).left;
    ScanInBounds(o, n, num, waits);
    if left != 0 {
      StageMayRedirect(o, n, num, waits);
      RedirectKeepsInv(RightPlacement(o), n, left);
    }
  }

  ghost predicate MayAddStage(o: Orders, n: nat, r: ScanResult, num: int, waits: bool, h: seq<Node>, e: seq<Node>) {
    && Inv(o) && n < |o.rows| && r == ScanFor(o, n, num, waits) && LeftIsThere(o, n, r.left)
    && TwoBehind(o.hebrew, h, StageRight(o, n, r.left))
    && TwoBehind(o.english, e, StageDown(o, n))
  }

  lemma StageKeepsPlacement(o: Orders, n: nat, r: ScanResult, num: int, waits: bool, h: seq<Node>, e: seq<Node>)
    requires MayAddStage(o, n, r, num, waits, h, e)
    ensures PlacementInv(Enter(Aimed(o, n, r.left), n, h))
  {
    AimedKeepsInv(o, n, num, waits);
    EnterKeepsInv(Aimed(o, n, r.left), n, h);
  }

  lemma StageKeepsSerial(o: Orders, n: nat, r: ScanResult, num: int, waits: bool, h: seq<Node>, e: seq<Node>)
    requires MayAddStage(o, n, r, num, waits, h, e)
    ensures SerialInv(EnterSerial(DownPlacement(o), n, e))
  {
    EnterSerialKeepsInv(DownPlacement(o), n, e);
  }

  lemma StageKeepsInv(o: Orders, n: nat, r: ScanResult, num: int, waits: bool, h: seq<Node>, e: seq<Node>)
    requires MayAddStage(o, n, r, num, waits, h, e)
    ensures Inv(WithStage(o, n, num, waits, r, h, e))
  {
    StagePictures(o, n, num, waits, r, h, e);
    StageKeepsPlacement(o, n, r, num, waits, h, e);
    StageKeepsSerial(o, n, r, num, waits, h, e);
    forall i: nat | i < |o.rows| ensures CursorAt(WithStage(o, n, num, waits, r, h, e), i) {
      StageKeepsCursor(o, n, num, waits, h, e, i);
    }
  }

  /** A further stage, waiting or not, keeps the lists in order and moves no node. */
  lemma AddStageKeepsInv(o: Orders, n: nat, num: int, waits: bool)
    requires Inv(o) && n < |o.rows|
    ensures Inv(AddStage(o, n, num, waits))
    ensures Extends(o.hebrew, AddStage(o, n, num, waits).hebrew)
    ensures Extends(o.english, AddStage(o, n, num, waits).english)
  {
    var r := ScanFor(o, n, num, waits);
    ScanInBounds(o, n, num, waits);
    PlacesInBounds(o, n, r.left);
    var right, down := StageRight(o, n, r.left), StageDown(o, n);
    InsertTwoIsTwoBehind(o.hebrew, right);
    InsertTwoIsTwoBehind(o.english, down);
    InsertTwoExtends(o.hebrew, right);
    InsertTwoExtends(o.english, down);
    StageKeepsInv(o, n, r, num, waits, InsertTwo(o.hebrew, right), InsertTwo(o.english, down));
  }

  /** o' has every stage of o, as it was. */
  ghost predicate KeepsFrames(o: Orders, o': Orders) {
    forall x {:trigger HasFrame(o', x)} | HasFrame(o, x) :: HasFrame(o', x) && FrameOf(o', x) == FrameOf(o, x)
  }

  /** o' is o with the stage list of a new iteration. */
  ghost predicate IterationAdded(o: Orders, o': Orders) {
    && |o'.rows| == |o.rows| + 1 && o'.rows[..|o.rows|] == o.rows && KeepsFrames(o, o')
    && o'.rows[|o.rows|].cursor == 1 && |o'.rows[|o.rows|].frames| == 1
    && var f := o'.rows[|o.rows|].frames[0]; f.num == 0 && !f.waits && f.left == 0
  }

  /** o' is o with one more stage of iteration n, whose scan ended in r. */
  ghost predicate StageAdded(o: Orders, o': Orders, n: nat, num: int, waits: bool, r: ScanResult) {
    && n < |o.rows| == |o'.rows| && (forall i | 0 <= i < |o.rows| && i != n :: o'.rows[i] == o.rows[i])
    && KeepsFrames(o, o') && o'.rows[n].cursor == r.cursor
    && var k := |o.rows[n].frames|;
       && |o'.rows[n].frames| == k + 1 && o'.rows[n].frames[..k] == o.rows[n].frames
       && var f := o'.rows[n].frames[k]; f.num == num && f.waits == waits && f.left == r.left
  }

  lemma AddFirstRows(o: Orders)
    requires Inv(o)
    ensures IterationAdded(o, AddFirst(o))
  {
  }

  lemma AddFirstIs(o: Orders)
    requires Inv(o)
    ensures NoEmptyRow(o.rows) && IsOrder(o.hebrew) && IsOrder(o.english)
    ensures FirstRight(o) < |o.hebrew| && NextIterationPlace(o) < |o.english|
    ensures AddFirst(o) == WithIteration(o, InsertTwo(o.hebrew, FirstRight(o)), InsertTwo(o.english, NextIterationPlace(o)))
  {
    FirstPlacesInBounds(o);
  }

  lemma AddStageIs(o: Orders, n: nat, num: int, waits: bool)
    requires Inv(o) && n < |o.rows|
    ensures var r := ScanFor(o, n, num, waits);
            && LeftIsThere(o, n, r.left) && IsOrder(o.hebrew) && IsOrder(o.english)
            && StageRight(o, n, r.left) < |o.hebrew| && StageDown(o, n) < |o.english|
            && AddStage(o, n, num, waits)
               == WithStage(o, n, num, waits, r, InsertTwo(o.hebrew, StageRight(o, n, r.left)),
                            InsertTwo(o.english, StageDown(o, n)))
  {
    ScanInBounds(o, n, num, waits);
    PlacesInBounds(o, n, ScanFor(o, n, num, waits).left);
  }

  lemma WithStageRows(o: Orders, n: nat, num: int, waits: bool, r: ScanResult, h: seq<Node>, e: seq<Node>)
    requires LeftIsThere(o, n, r.left)
    ensures StageAdded(o, WithStage(o, n, num, waits, r, h, e), n, num, waits, r)
  {
  }

  lemma AddStageRows(o: Orders, n: nat, num: int, waits: bool)
    requires Inv(o) && n < |o.rows|
    ensures StageAdded(o, AddStage(o, n, num, waits), n, num, waits, ScanFor(o, n, num, waits))
  {
    var r := ScanFor(o, n, num, waits);
    ScanInBounds(o, n, num, waits);
    PlacesInBounds(o, n, r.left);
    WithStageRows(o, n, num, waits, r, InsertTwo(o.hebrew, StageRight(o, n, r.left)), InsertTwo(o.english, StageDown(o, n)));
  }

  lemma EmptyHasInv()
    ensures Inv(EMPTY)
  {
    AllocatedHolds(1, 0);
    assert Allocated(1) == Allocated(0) + multiset{0};
    var s := DownPlacement(EMPTY);
    forall x, y | HasPlace(s, x) && HasPlace(s, y) ensures InSerialPlace(s, x, y) && PlaceOf(s, x) < |s.list| {
    }
  }

  // ------------------------------------------------------------- main results

  lemma StageDagIsWellFormed(o: Orders)
    requires Inv(o)
    ensures WellFormed(StageDag(o)) && Grows(StageDag(o), RightPlacement(o).dag)
    ensures forall x :: Has(StageDag(o), x) <==> HasFrame(o, x)
  {
    var d, p := StageDag(o), RightPlacement(o);
    forall i: nat | i < |d| ensures RowFits(d, i) {
      assert ShapeAt(p, i);
      if i > 0 { assert |p.cont[i - 1]| == |d[i - 1]|; }
      assert forall k | 0 <= k < |d[i]| :: d[i][k] == p.dag[i][k];
      forall k: nat | 1 <= k < |d[i]| ensures NotBehind(d[i], k) {
        assert NotBehind(p.dag[i], k);
        FrontierStays(d[i], p.dag[i], k - 1);
      }
    }
  }

  ghost predicate BeforeInBoth(o: Orders, x: Stage, y: Stage)
    requires HasFrame(o, x) && HasFrame(o, y)
  {
    && Precedes(o.hebrew, FrameOf(o, x).rightFirst.current, FrameOf(o, y).rightFirst.current)
    && Precedes(o.english, FrameOf(o, x).downFirst.current, FrameOf(o, y).downFirst.current)
  }

  ghost predicate OrdersDisagree(o: Orders, x: Stage, y: Stage)
    requires HasFrame(o, x) && HasFrame(o, y)
  {
    Precedes(o.hebrew, FrameOf(o, x).rightFirst.current, FrameOf(o, y).rightFirst.current)
    != Precedes(o.english, FrameOf(o, x).downFirst.current, FrameOf(o, y).downFirst.current)
  }

  /** Where two stages are in the two lists, in terms of the dag alone. */
  lemma ListOrders(o: Orders, x: Stage, y: Stage)
    requires Inv(o) && HasFrame(o, x) && HasFrame(o, y)
    ensures Has(StageDag(o), x) && Has(StageDag(o), y)
    ensures Precedes(o.hebrew, FrameOf(o, x).rightFirst.current, FrameOf(o, y).rightFirst.current)
       <==> x != y && RightFirstBefore(StageDag(o), x, y)
    ensures Precedes(o.english, FrameOf(o, x).downFirst.current, FrameOf(o, y).downFirst.current)
       <==> SerialBefore(x, y)
    ensures x != y ==> (&& FrameOf(o, x).rightFirst.current != FrameOf(o, y).rightFirst.current
                        && FrameOf(o, x).downFirst.current != FrameOf(o, y).downFirst.current)
  {
    var p, s := RightPlacement(o), DownPlacement(o);
    StageDagIsWellFormed(o);
    assert HasPoint(p, x) && HasPoint(p, y) && HasPlace(s, x) && HasPlace(s, y);
    assert NodeOf(p, x) == FrameOf(o, x).rightFirst.current && NodeOf(p, y) == FrameOf(o, y).rightFirst.current;
    assert PlaceOf(s, x) == FrameOf(o, x).downFirst.current && PlaceOf(s, y) == FrameOf(o, y).downFirst.current;
    PlacesAreSerial(s, x, y);
    if x != y {
      PlacesAreRightFirst(p, x, y);
      SameOrderIfGrown(StageDag(o), p.dag, x, y);
    }
  }

  /** x is before y in both lists exactly if x reaches y in the dag, and two
      stages are ordered oppositely exactly if neither reaches the other. */
  lemma TwoOrdersDecideReachability(o: Orders, x: Stage, y: Stage)
    requires Inv(o) && HasFrame(o, x) && HasFrame(o, y)
    ensures BeforeInBoth(o, x, y) <==> x != y && Reaches(StageDag(o), x, y)
    ensures OrdersDisagree(o, x, y) <==> !Reaches(StageDag(o), x, y) && !Reaches(StageDag(o), y, x)
  {
    StageDagIsWellFormed(o);
    ListOrders(o, x, y);
    ListOrders(o, y, x);
    ReachesIffByIndex(StageDag(o), x, y);
    ReachesIffByIndex(StageDag(o), y, x);
  }

  /** No placeholder becomes the place of two stages, in either list. */
  lemma PlaceholdersAreUsedOnce(o: Orders, x: Stage, y: Stage)
    requires Inv(o) && HasFrame(o, x) && HasFrame(o, y)
    requires FrameOf(o, x).rightFirst.current == FrameOf(o, y).rightFirst.current
          || FrameOf(o, x).downFirst.current == FrameOf(o, y).downFirst.current
    ensures x == y
  {
    ListOrders(o, x, y);
  }

  /** The list orders depend on the dag only: two sets of lists that record the
      same dag list the stages in the same orders, however they came about. */
  lemma OrdersFollowFromDag(o: Orders, o': Orders, x: Stage, y: Stage)
    requires Inv(o) && Inv(o') && StageDag(o) == StageDag(o') && HasFrame(o, x) && HasFrame(o, y)
    ensures HasFrame(o', x) && HasFrame(o', y)
    ensures Precedes(o.hebrew, FrameOf(o, x).rightFirst.current, FrameOf(o, y).rightFirst.current)
       <==> Precedes(o'.hebrew, FrameOf(o', x).rightFirst.current, FrameOf(o', y).rightFirst.current)
    ensures Precedes(o.english, FrameOf(o, x).downFirst.current, FrameOf(o, y).downFirst.current)
       <==> Precedes(o'.english, FrameOf(o', x).downFirst.current, FrameOf(o', y).downFirst.current)
  {
    StageDagIsWellFormed(o);
    StageDagIsWellFormed(o');
    ListOrders(o, x, y);
    ListOrders(o', x, y);
  }
}
