/** The controller that the stage macros call: it keeps the stage lists of the
    latest iterations in a ring and enters every stage into the two order lists. */
module PiperRd {
  import opened OrderList
  import opened PipelineDag
  import opened LeftDependency
  import opened StageOrders
  import opened GrowingList
  import opened IterationRing

  /** A stage as it is stored. Whether it waited, and on which left stage, is not. */
  datatype StageRecord = StageRecord(iterNum: int, stageNum: int, downFirst: Order, rightFirst: Order)

  predicate Pictures(recs: seq<StageRecord>, frames: seq<StageFrame>) {
    && |recs| == |frames|
    && forall k | 0 <= k < |recs| :: PicturesAt(recs, frames, k)
  }

  predicate PicturesAt(recs: seq<StageRecord>, frames: seq<StageFrame>, k: nat)
    requires k < |recs| == |frames|
  {
    recs[k].stageNum == frames[k].num && recs[k].downFirst == frames[k].downFirst && recs[k].rightFirst == frames[k].rightFirst
  }

  lemma OneMorePictured(recs: seq<StageRecord>, frames: seq<StageFrame>, r: StageRecord, f: StageFrame)
    requires Pictures(recs, frames)
    requires r.stageNum == f.num && r.downFirst == f.downFirst && r.rightFirst == f.rightFirst
    ensures Pictures(recs + [r], frames + [f])
  {
    forall k | 0 <= k < |recs| + 1 ensures PicturesAt(recs + [r], frames + [f], k) {
      assert k < |recs| ==> PicturesAt(recs, frames, k);
    }
  }

  datatype Verdict = Serial(holds: bool) | NoSuchStage

  /** What the two kinds of stage need of the lists. */
  ghost predicate PlacesFit(o: Orders, n: nat, left: nat) {
    && LeftIsThere(o, n, left) && IsOrder(o.hebrew) && IsOrder(o.english)
    && StageRight(o, n, left) < |o.hebrew| && StageDown(o, n) < |o.english|
  }

  lemma StagePlacesFit(o: Orders, n: nat, num: int, waits: bool, r: ScanResult)
    requires Inv(o) && n < |o.rows| && r == ScanFor(o, n, num, waits)
    ensures PlacesFit(o, n, r.left) && 1 <= o.rows[n].cursor <= |LeftNums(o, n)|
  {
    AddStageIs(o, n, num, waits);
    CursorInBounds(o, n);
  }

  lemma StageIsSound(o: Orders, n: nat, num: int, waits: bool, r: ScanResult, o': Orders)
    requires Inv(o) && n < |o.rows| && r == ScanFor(o, n, num, waits) && PlacesFit(o, n, r.left)
    requires o' == WithStage(o, n, num, waits, r, InsertTwo(o.hebrew, StageRight(o, n, r.left)), InsertTwo(o.english, StageDown(o, n)))
    ensures o' == AddStage(o, n, num, waits) && Inv(o')
  {
    AddStageIs(o, n, num, waits);
    AddStageKeepsInv(o, n, num, waits);
  }

  class PiperRDControl {
    const iterations: Iterations<StageRecord>
    const english: OmList
    const hebrew: OmList
    /** All stages so far, with what the lists do not store. */
    ghost var orders: Orders

    ghost function Contents(i: nat): seq<StageRecord>
      requires i < |iterations.inserted| && iterations.inserted[i].Valid()
      reads iterations, iterations.inserted, set l | l in iterations.inserted :: l.p
    {
      iterations.inserted[i].Contents()
    }

    /** The list of iteration i + 1 shows its row. */
    ghost predicate ListShows(i: nat, row: StageList)
      requires i < |iterations.inserted|
      reads iterations, iterations.inserted, set l | l in iterations.inserted :: l.p
    {
      var l := iterations.inserted[i];
      l.Valid() && Pictures(l.Contents(), row.frames) && l.index == row.cursor
    }

    ghost predicate Separate()
      reads iterations, iterations.inserted
    {
      var ls := iterations.inserted;
      forall i, j | 0 <= i < |ls| && 0 <= j < |ls| && i != j :: ls[i] != ls[j] && ls[i].p != ls[j].p
    }

    /** The ring and the lists in it show the given rows. */
    ghost predicate Shows(rows: seq<StageList>)
      reads iterations, iterations.p, iterations.iterNumList
      reads iterations.inserted, set l | l in iterations.inserted :: l.p
    {
      && iterations.Valid() && iterations.throttleLimit >= 1 && |iterations.inserted| == |rows| && Separate()
      && (forall i: nat | i < |rows| :: ListShows(i, rows[i]))
    }

    ghost predicate Valid()
      reads this, iterations, iterations.p, iterations.iterNumList, english, hebrew
      reads iterations.inserted, set l | l in iterations.inserted :: l.p
    {
      && Shows(orders.rows) && english != hebrew
      && english.nodes == orders.english && hebrew.nodes == orders.hebrew
    }

    /** The stage list of iteration n. */
    ghost function ListOf(n: int): List<StageRecord>
      requires 0 < n <= |iterations.inserted|
      reads iterations
    {
      iterations.inserted[n - 1]
    }

    constructor (throttleLimit: nat)
      requires throttleLimit >= 1
      ensures Valid() && Inv(orders) && orders == EMPTY && iterations.throttleLimit == throttleLimit
    {
      iterations := new Iterations<StageRecord>(throttleLimit);
      english := new OmList();
      hebrew := new OmList();
      EmptyHasInv();
      orders := EMPTY;
    }

    /** createOrder: both continuations of a stage in both lists. */
    method CreateOrder(right: Node, down: Node) returns (rightFirst: Order, downFirst: Order)
      requires hebrew.Valid() && english.Valid() && hebrew != english
      requires right < |hebrew.nodes| && down < |english.nodes|
      modifies hebrew, english
      ensures hebrew.nodes == InsertTwo(old(hebrew.nodes), right) && english.nodes == InsertTwo(old(english.nodes), down)
      ensures rightFirst == Order(right, |old(hebrew.nodes)|, |old(hebrew.nodes)| + 1)
      ensures downFirst == Order(down, |old(english.nodes)| + 1, |old(english.nodes)|)
    {
      var rightCont := hebrew.Insert(right);
      var downCont := hebrew.Insert(rightCont);
      rightFirst := Order(right, rightCont, downCont);
      downCont := english.Insert(down);
      rightCont := english.Insert(downCont);
      downFirst := Order(down, rightCont, downCont);
    }

    /** One scan over the stage list to the left. */
    method ScanLeft(pre: List<StageRecord>, start: nat, stage: int, ghost frames: seq<StageFrame>)
      returns (left: nat, index: nat)
      requires pre.Valid() && Pictures(pre.Contents(), frames) && 1 <= start <= |frames|
      ensures ScanResult(left, index) == Scan(FrameNums(frames), start, stage, 0)
    {
      ghost var nums := FrameNums(frames);
      var length := pre.Length();
      var ret, iPre := 0, 0;
      index := start;
      while index < length
        invariant iPre < index <= length == |nums| && ret == 0
        invariant Scan(nums, start, stage, 0) == Scan(nums, index, stage, iPre)
        decreases length - index
      {
        var f := pre.Get(index);
        assert PicturesAt(pre.Contents(), frames, index);
        if f.value.stageNum == stage {
          ret := index;
          index := index + 1;
          break;
        } else if f.value.stageNum < stage {
          iPre := index;
          index := index + 1;
        } else {
          ret := iPre;
          break;
        }
      }
      left := if ret > iPre then ret else iPre;
    }

    method SetIndex(iterNum: int, index: nat, ghost rows: seq<StageList>)
      requires Shows(rows) && iterations.InWindow(iterNum)
      modifies ListOf(iterNum)`index
      ensures Shows(rows[iterNum - 1 := StageList(rows[iterNum - 1].frames, index)]) && ListOf(iterNum).index == index
    {
      var cur := iterations.GetStageFrameList(iterNum);
      cur.index := index;
      ghost var rows' := rows[iterNum - 1 := StageList(rows[iterNum - 1].frames, index)];
      forall i: nat | i < |rows| ensures ListShows(i, rows'[i]) {
        assert old(ListShows(i, rows[i])) && Contents(i) == old(Contents(i));
      }
    }

    method GetLeftDependency(iterNum: int, stage: int, ghost rows: seq<StageList>) returns (left: nat)
      requires Shows(rows) && iterations.InWindow(iterNum) && iterations.InWindow(iterNum - 1)
      requires 1 <= rows[iterNum - 1].cursor <= |rows[iterNum - 2].frames|
      modifies ListOf(iterNum)`index
      ensures ScanResult(left, ListOf(iterNum).index)
           == Scan(FrameNums(rows[iterNum - 2].frames), rows[iterNum - 1].cursor, stage, 0)
      ensures Shows(rows[iterNum - 1 := StageList(rows[iterNum - 1].frames, ListOf(iterNum).index)])
    {
      var cur := iterations.GetStageFrameList(iterNum);
      var pre := iterations.GetStageFrameList(iterNum - 1);
      assert ListShows(iterNum - 1, rows[iterNum - 1]) && ListShows(iterNum - 2, rows[iterNum - 2]);
      var index;
      left, index := ScanLeft(pre, cur.index, stage, rows[iterNum - 2].frames);
      SetIndex(iterNum, index, rows);
    }

    method StartList(iterNum: int, first: StageRecord, ghost rows: seq<StageList>, ghost f: StageFrame)
      requires Shows(rows) && iterNum == |rows| + 1 && PicturesAt([first], [f], 0)
      modifies iterations, iterations.p, iterations.iterNumList
      ensures Shows(rows + [StageList([f], 1)])
    {
      var list := iterations.InsertStageFrameList(iterNum);
      list.Append(first);
      list.iterNum := iterNum;
      list.index := 1;
      assert list.Contents() == [first];
      forall i: nat | i < |rows| + 1 ensures ListShows(i, (rows + [StageList([f], 1)])[i]) {
        if i < |rows| {
          assert old(ListShows(i, rows[i])) && Contents(i) == old(Contents(i));
        }
      }
    }

    method AppendTo(iterNum: int, rec: StageRecord, ghost rows: seq<StageList>, ghost f: StageFrame)
      requires Shows(rows) && iterations.InWindow(iterNum) && PicturesAt([rec], [f], 0)
      modifies ListOf(iterNum)`p, ListOf(iterNum)`top, ListOf(iterNum)`size, ListOf(iterNum).p
      ensures Shows(rows[iterNum - 1 := StageList(rows[iterNum - 1].frames + [f], rows[iterNum - 1].cursor)])
    {
      var list := iterations.GetStageFrameList(iterNum);
      assert ListShows(iterNum - 1, rows[iterNum - 1]);
      ghost var recs, row := list.Contents(), rows[iterNum - 1];
      list.Append(rec);
      OneMorePictured(recs, row.frames, rec, f);
      ghost var rows' := rows[iterNum - 1 := StageList(row.frames + [f], row.cursor)];
      forall i: nat | i < |rows| ensures ListShows(i, rows'[i]) {
        if i != iterNum - 1 {
          assert old(ListShows(i, rows[i])) && Contents(i) == old(Contents(i));
        }
      }
    }

    method FirstPlaces(iterNum: int) returns (right: Node, down: Node)
      requires Shows(orders.rows) && iterNum == |orders.rows| + 1 && NoEmptyRow(orders.rows)
      ensures right == FirstRight(orders) && down == NextIterationPlace(orders)
    {
      if iterNum > 1 {
        var preIter := iterations.GetStageFrameList(iterNum - 1);
        assert ListShows(iterNum - 2, orders.rows[iterNum - 2]);
        var sibling := preIter.Get(0);
        assert PicturesAt(preIter.Contents(), orders.rows[iterNum - 2].frames, 0);
        right := sibling.value.rightFirst.rightCont;
        down := sibling.value.downFirst.rightCont;
      } else {
        right := 0;
        down := 0;
      }
    }

    /** Enters stage 0 of the next iteration at the given places. */
    method EnterFirst(iterNum: int, right: Node, down: Node)
      requires Valid() && iterNum == |orders.rows| + 1 && NoEmptyRow(orders.rows)
      requires hebrew.Valid() && english.Valid() && right < |hebrew.nodes| && down < |english.nodes|
      requires right == FirstRight(orders) && down == NextIterationPlace(orders)
      modifies this`orders, hebrew, english, iterations, iterations.p, iterations.iterNumList
      ensures Valid()
      ensures orders == WithIteration(old(orders), InsertTwo(old(hebrew.nodes), right), InsertTwo(old(english.nodes), down))
    {
      ghost var o := orders;
      var rightFirst, downFirst := CreateOrder(right, down);
      ghost var f := NewFrame(o, 0, false, 0, right, down);
      assert Shows(o.rows);
      StartList(iterNum, StageRecord(iterNum, 0, downFirst, rightFirst), o.rows, f);
      ghost var rows' := o.rows + [StageList([f], 1)];
      assert Shows(rows');
      orders := WithIteration(o, hebrew.nodes, english.nodes);
      assert orders.rows == rows';
    }

    method CilkStageFirst(iterNum: int) returns (right: Node, down: Node)
      requires Valid() && Inv(orders) && iterNum == |orders.rows| + 1
      modifies this`orders, hebrew, english, iterations, iterations.p, iterations.iterNumList
      ensures Valid() && Inv(orders)
      ensures orders == AddFirst(old(orders))
      ensures right == FirstRight(old(orders)) && down == NextIterationPlace(old(orders))
    {
      AddFirstIs(orders);
      AddFirstKeepsInv(orders);
      right, down := FirstPlaces(iterNum);
      EnterFirst(iterNum, right, down);
    }

    /** Enters a further stage of an iteration at the given places; its scan,
        if it made one, ended in r. */
    method EnterStage(iterNum: int, stage: int, right: Node, down: Node, ghost waits: bool, ghost r: ScanResult)
      requires iterations.InWindow(iterNum) && LeftIsThere(orders, iterNum - 1, r.left)
      requires Shows(orders.rows[iterNum - 1 := StageList(orders.rows[iterNum - 1].frames, r.cursor)])
      requires english != hebrew && english.nodes == orders.english && hebrew.nodes == orders.hebrew
      requires hebrew.Valid() && english.Valid() && right < |hebrew.nodes| && down < |english.nodes|
      requires right == StageRight(orders, iterNum - 1, r.left) && down == StageDown(orders, iterNum - 1)
      modifies this`orders, hebrew, english
      modifies ListOf(iterNum)`p, ListOf(iterNum)`top, ListOf(iterNum)`size, ListOf(iterNum).p
      ensures Valid()
      ensures orders == WithStage(old(orders), iterNum - 1, stage, waits, r,
                                  InsertTwo(old(hebrew.nodes), right), InsertTwo(old(english.nodes), down))
    {
      ghost var o, i := orders, iterNum - 1;
      var rightFirst, downFirst := CreateOrder(right, down);
      ghost var f := NewFrame(o, stage, waits, r.left, right, down);
      ghost var rows := o.rows[i := StageList(o.rows[i].frames, r.cursor)];
      assert Shows(rows);
      AppendTo(iterNum, StageRecord(iterNum, stage, downFirst, rightFirst), rows, f);
      ghost var rows' := rows[i := StageList(rows[i].frames + [f], rows[i].cursor)];
      assert Shows(rows');
      orders := WithStage(o, i, stage, waits, r, hebrew.nodes, english.nodes);
      assert orders.rows == rows';
    }

    /** The down continuations of the last stage of an iteration. */
    method ParentPlaces(iterNum: int) returns (right: Node, down: Node)
      requires Shows(orders.rows) && iterations.InWindow(iterNum) && NoEmptyRow(orders.rows)
      ensures right == StageRight(orders, iterNum - 1, 0) && down == StageDown(orders, iterNum - 1)
    {
      var curIter := iterations.GetStageFrameList(iterNum);
      assert ListShows(iterNum - 1, orders.rows[iterNum - 1]);
      var parent := curIter.Get(curIter.Length() - 1);
      assert PicturesAt(curIter.Contents(), orders.rows[iterNum - 1].frames, |orders.rows[iterNum - 1].frames| - 1);
      right := parent.value.rightFirst.downCont;
      down := parent.value.downFirst.downCont;
    }

    method EnterBehindParent(iterNum: int, userStage: int, ghost r: ScanResult) returns (right: Node, down: Node)
      requires Valid() && iterations.InWindow(iterNum) && PlacesFit(orders, iterNum - 1, r.left)
      requires r == ScanFor(orders, iterNum - 1, userStage, false)
      modifies this`orders, hebrew, english
      modifies ListOf(iterNum)`p, ListOf(iterNum)`top, ListOf(iterNum)`size, ListOf(iterNum).p
      ensures Valid()
      ensures right == StageRight(old(orders), iterNum - 1, r.left) && down == StageDown(old(orders), iterNum - 1)
      ensures orders == WithStage(old(orders), iterNum - 1, userStage, false, r,
                                  InsertTwo(old(hebrew.nodes), right), InsertTwo(old(english.nodes), down))
    {
      ghost var o, i := orders, iterNum - 1;
      right, down := ParentPlaces(iterNum);
      assert o.rows[i := StageList(o.rows[i].frames, r.cursor)] == o.rows;
      EnterStage(iterNum, userStage, right, down, false, r);
    }

    method CilkStage(iterNum: int, userStage: int) returns (right: Node, down: Node)
      requires Valid() && Inv(orders) && iterations.InWindow(iterNum)
      modifies this`orders, hebrew, english
      modifies ListOf(iterNum)`p, ListOf(iterNum)`top, ListOf(iterNum)`size, ListOf(iterNum).p
      ensures Valid() && Inv(orders)
      ensures orders == AddStage(old(orders), iterNum - 1, userStage, false)
      ensures right == StageRight(old(orders), iterNum - 1, 0) && down == StageDown(old(orders), iterNum - 1)
    {
      ghost var o, n := orders, iterNum - 1;
      ghost var r := ScanFor(o, n, userStage, false);
      StagePlacesFit(o, n, userStage, false, r);
      right, down := EnterBehindParent(iterNum, userStage, r);
      StageIsSound(o, n, userStage, false, r, orders);
    }

    method SiblingPlace(iterNum: int, leftIndex: nat, ghost rows: seq<StageList>) returns (right: Node)
      requires Shows(rows) && 1 < iterNum && iterations.InWindow(iterNum - 1) && iterNum <= |rows|
      requires leftIndex < |rows[iterNum - 2].frames|
      ensures right == rows[iterNum - 2].frames[leftIndex].rightFirst.rightCont
    {
      var preIter := iterations.GetStageFrameList(iterNum - 1);
      assert ListShows(iterNum - 2, rows[iterNum - 2]);
      var sibling := preIter.Get(leftIndex);
      assert PicturesAt(preIter.Contents(), rows[iterNum - 2].frames, leftIndex);
      right := sibling.value.rightFirst.rightCont;
    }

    /** The place of a waiting stage: behind the left stage it depends on, if
        the scan finds one, and behind its parent otherwise. */
    method WaitPlaces(iterNum: int, userStage: int, ghost r: ScanResult) returns (right: Node, down: Node)
      requires Shows(orders.rows) && iterations.InWindow(iterNum) && NoEmptyRow(orders.rows)
      requires iterNum > 1 ==> iterations.InWindow(iterNum - 1)
      requires 1 <= orders.rows[iterNum - 1].cursor <= |LeftNums(orders, iterNum - 1)|
      requires r == ScanFor(orders, iterNum - 1, userStage, true) && LeftIsThere(orders, iterNum - 1, r.left)
      modifies ListOf(iterNum)`index
      ensures Shows(orders.rows[iterNum - 1 := StageList(orders.rows[iterNum - 1].frames, r.cursor)])
      ensures right == StageRight(orders, iterNum - 1, r.left) && down == StageDown(orders, iterNum - 1)
    {
      ghost var rows := orders.rows;
      right, down := ParentPlaces(iterNum);
      if iterNum > 1 {
        var leftIndex := GetLeftDependency(iterNum, userStage, rows);
        if leftIndex != 0 {
          right := SiblingPlace(iterNum, leftIndex, rows[iterNum - 1 := StageList(rows[iterNum - 1].frames, r.cursor)]);
        }
      } else {
        assert rows[0 := StageList(rows[0].frames, r.cursor)] == rows;
      }
    }

    method EnterWaiting(iterNum: int, userStage: int, ghost r: ScanResult) returns (right: Node, down: Node)
      requires Valid() && iterations.InWindow(iterNum) && PlacesFit(orders, iterNum - 1, r.left)
      requires iterNum > 1 ==> iterations.InWindow(iterNum - 1)
      requires 1 <= orders.rows[iterNum - 1].cursor <= |LeftNums(orders, iterNum - 1)|
      requires r == ScanFor(orders, iterNum - 1, userStage, true)
      modifies this`orders, hebrew, english, ListOf(iterNum)`index
      modifies ListOf(iterNum)`p, ListOf(iterNum)`top, ListOf(iterNum)`size, ListOf(iterNum).p
      ensures Valid()
      ensures right == StageRight(old(orders), iterNum - 1, r.left) && down == StageDown(old(orders), iterNum - 1)
      ensures orders == WithStage(old(orders), iterNum - 1, userStage, true, r,
                                  InsertTwo(old(hebrew.nodes), right), InsertTwo(old(english.nodes), down))
    {
      right, down := WaitPlaces(iterNum, userStage, r);
      EnterStage(iterNum, userStage, right, down, true, r);
    }

    method CilkStageWait(iterNum: int, userStage: int) returns (right: Node, down: Node)
      requires Valid() && Inv(orders) && iterations.InWindow(iterNum)
      requires iterNum > 1 ==> iterations.InWindow(iterNum - 1)
      modifies this`orders, hebrew, english, ListOf(iterNum)`index
      modifies ListOf(iterNum)`p, ListOf(iterNum)`top, ListOf(iterNum)`size, ListOf(iterNum).p
      ensures Valid() && Inv(orders)
      ensures orders == AddStage(old(orders), iterNum - 1, userStage, true)
      ensures var left := ScanFor(old(orders), iterNum - 1, userStage, true).left;
              && LeftIsThere(old(orders), iterNum - 1, left)
              && right == StageRight(old(orders), iterNum - 1, left) && down == StageDown(old(orders), iterNum - 1)
    {
      ghost var o, n := orders, iterNum - 1;
      ghost var r := ScanFor(o, n, userStage, true);
      StagePlacesFit(o, n, userStage, true, r);
      right, down := EnterWaiting(iterNum, userStage, r);
      StageIsSound(o, n, userStage, true, r, orders);
    }

    /** The first stage of a list with the given number; the original throws
        when it runs off the end of the list. */
    method FindStage(list: List<StageRecord>, stage: int, ghost frames: seq<StageFrame>)
      returns (found: bool, index: nat)
      requires list.Valid() && Pictures(list.Contents(), frames)
      ensures found <==> stage in FrameNums(frames)
      ensures found ==> index < |frames| && frames[index].num == stage && forall k | 0 <= k < index :: frames[k].num != stage
    {
      index := 0;
      while index < list.Length()
        invariant index <= |frames| && forall k | 0 <= k < index :: frames[k].num != stage
      {
        var f := list.Get(index);
        assert PicturesAt(list.Contents(), frames, index);
        if f.value.stageNum == stage {
          assert FrameNums(frames)[index] == stage;
          return true, index;
        }
        index := index + 1;
      }
      found := false;
    }

    method FetchStage(iterNum: int, stage: int) returns (found: bool, rec: StageRecord, ghost x: Stage)
      requires Shows(orders.rows) && iterations.InWindow(iterNum)
      ensures found <==> stage in FrameNums(orders.rows[iterNum - 1].frames)
      ensures found ==> IsFirstNumbered(orders, x, iterNum, stage)
      ensures found ==> rec.rightFirst == FrameOf(orders, x).rightFirst && rec.downFirst == FrameOf(orders, x).downFirst
    {
      var list := iterations.GetStageFrameList(iterNum);
      assert ListShows(iterNum - 1, orders.rows[iterNum - 1]);
      var index;
      found, index := FindStage(list, stage, orders.rows[iterNum - 1].frames);
      x := Stage(iterNum - 1, index);
      var f := list.Get(index);
      rec := if found then f.value else StageRecord(0, 0, Order(0, 0, 0), Order(0, 0, 0));
      assert found ==> PicturesAt(list.Contents(), orders.rows[iterNum - 1].frames, index);
    }

    lemma SerialIff(x: Stage, y: Stage)
      requires Inv(orders) && HasFrame(orders, x) && HasFrame(orders, y)
      ensures BeforeInBoth(orders, x, y) || BeforeInBoth(orders, y, x)
         <==> x != y && (Reaches(StageDag(orders), x, y) || Reaches(StageDag(orders), y, x))
    {
      TwoOrdersDecideReachability(orders, x, y);
      TwoOrdersDecideReachability(orders, y, x);
    }

    /** Two stages are called serial exactly if one reaches the other. */
    method IsSerial(iterNumA: int, stageA: int, iterNumB: int, stageB: int) returns (v: Verdict)
      requires Valid() && Inv(orders) && iterations.InWindow(iterNumA) && iterations.InWindow(iterNumB)
      ensures v.NoSuchStage? <==> (|| stageA !in FrameNums(orders.rows[iterNumA - 1].frames)
                                   || stageB !in FrameNums(orders.rows[iterNumB - 1].frames))
      ensures v.Serial? ==> exists x, y ::
                && IsFirstNumbered(orders, x, iterNumA, stageA) && IsFirstNumbered(orders, y, iterNumB, stageB)
                && (v.holds <==> x != y && (Reaches(StageDag(orders), x, y) || Reaches(StageDag(orders), y, x)))
    {
      var foundA, sfA, x := FetchStage(iterNumA, stageA);
      if !foundA {
        return NoSuchStage;
      }
      var foundB, sfB, y := FetchStage(iterNumB, stageB);
      if !foundB {
        return NoSuchStage;
      }
      v := Serial(BothPrecede(sfA, sfB) || BothPrecede(sfB, sfA));
      SerialIff(x, y);
    }

    predicate BothPrecede(a: StageRecord, b: StageRecord)
      reads hebrew, english
    {
      && Precedes(hebrew.nodes, a.rightFirst.current, b.rightFirst.current)
      && Precedes(english.nodes, a.downFirst.current, b.downFirst.current)
    }
  }

  ghost predicate IsFirstNumbered(o: Orders, x: Stage, iterNum: int, stage: int) {
    && HasFrame(o, x) && x.iter + 1 == iterNum && FrameOf(o, x).num == stage
    && forall k | 0 <= k < x.index :: o.rows[x.iter].frames[k].num != stage
  }
}
