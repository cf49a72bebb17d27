/** The ring of stage lists: room for the lists of throttleLimit + 1 iterations,
    walked by two cursors that start at -1. */
module IterationRing {
  import opened GrowingList

  datatype Cursors = Cursors(head: int, tail: int)

  const UNUSED := Cursors(-1, -1)

  /** One insertion: the list goes to the slot that head is moved to. */
  function Advance(slots: nat, c: Cursors): Cursors
    requires slots > 0
  {
    if c.tail <= c.head && c.head + 1 < slots then Cursors(c.head + 1, c.tail)
    else if c.tail < c.head then Cursors(0, 1)
    else if c.head < c.tail then Cursors(c.head + 1, (c.tail + 1) % slots)
    else c
  }

  function After(slots: nat, n: nat): Cursors
    requires slots > 0
  {
    if n == 0 then UNUSED else Advance(slots, After(slots, n - 1))
  }

  /** The slot that iteration n (counted from 1) is looked up in. */
  function GetIndex(slots: nat, n: int): (i: int)
    requires slots > 0
    ensures 0 <= i < slots
  {
    var m := n % slots;
    if m == 0 then slots - 1 else m - 1
  }

  /** The slots in the order in which they are filled, round after round. */
  function SlotOf(slots: nat, n: nat): (i: nat)
    requires slots > 0 && n > 0
    ensures i < slots
  {
    if n == 1 || SlotOf(slots, n - 1) + 1 == slots then 0 else SlotOf(slots, n - 1) + 1
  }

  lemma ProductIsLarge(x: int, y: int)
    requires x >= 1 && y >= 0
    ensures x * y >= y
  {
    assert x * y == (x - 1) * y + y;
  }

  lemma RemainderIs(n: nat, slots: nat, q: int, m: nat)
    requires m < slots && n == q * slots + m
    ensures n % slots == m
  {
    var d := n / slots - q;
    assert n == (n / slots) * slots + n % slots;
    assert d * slots == (n / slots) * slots - q * slots;
    if d >= 1 {
      ProductIsLarge(d, slots);
    } else if d <= -1 {
      assert (-d) * slots == q * slots - (n / slots) * slots;
      ProductIsLarge(-d, slots);
    }
  }

  lemma RemainderSteps(n: nat, slots: nat)
    requires slots > 0
    ensures (n + 1) % slots == if n % slots + 1 == slots then 0 else n % slots + 1
  {
    var q := n / slots;
    assert n == q * slots + n % slots;
    if n % slots + 1 == slots {
      assert (q + 1) * slots == q * slots + slots;
      RemainderIs(n + 1, slots, q + 1, 0);
    } else {
      RemainderIs(n + 1, slots, q, n % slots + 1);
    }
  }

  lemma {:induction false} SlotIsRemainder(slots: nat, n: nat)
    requires slots > 0 && n > 0
    ensures n % slots == if SlotOf(slots, n) + 1 == slots then 0 else SlotOf(slots, n) + 1
  {
    RemainderSteps(n - 1, slots);
    if n > 1 {
      SlotIsRemainder(slots, n - 1);
    } else {
      RemainderIs(0, slots, 0, 0);
    }
  }

  lemma LookedUpWherePlaced(slots: nat, n: nat)
    requires slots > 0 && n > 0
    ensures GetIndex(slots, n) == SlotOf(slots, n)
  {
    SlotIsRemainder(slots, n);
  }

  /** The cursors after n insertions into a ring of two slots or more. */
  lemma {:induction false} CursorsAfter(slots: nat, n: nat)
    requires slots >= 2 && n > 0
    ensures After(slots, n).head == SlotOf(slots, n)
    ensures After(slots, n).tail == if n <= slots then -1 else SlotOf(slots, n + 1)
    ensures n <= slots ==> SlotOf(slots, n) == n - 1
  {
    if n > 1 {
      CursorsAfter(slots, n - 1);
      if n > slots {
        TailWraps(slots, n);
      }
    } else {
      assert After(slots, 1) == Advance(slots, UNUSED);
    }
  }

  /** Every insertion into such a ring moves head. */
  lemma CursorsMove(slots: nat, n: nat)
    requires slots >= 2
    ensures var c := After(slots, n); (c.tail <= c.head && c.head + 1 < slots) || c.tail < c.head || c.head < c.tail
  {
    if n > 0 {
      CursorsAfter(slots, n);
    }
  }

  lemma TailWraps(slots: nat, n: nat)
    requires slots >= 2 && n > 0
    ensures SlotOf(slots, n + 1) == (SlotOf(slots, n) + 1) % slots
  {
    var m := SlotOf(slots, n) + 1;
    RemainderIs(m, slots, if m == slots then 1 else 0, if m == slots then 0 else m);
  }

  /** The n-th list is put where iteration n is looked up, for every n, exactly
      if the ring has two slots or more, that is, a throttle limit of 1 or more. */
  lemma PlacementIsRightIff(slots: nat)
    requires slots > 0
    ensures (forall n: nat | n > 0 :: After(slots, n).head == GetIndex(slots, n)) <==> slots >= 2
  {
    if slots >= 2 {
      forall n: nat | n > 0 ensures After(slots, n).head == GetIndex(slots, n) {
        CursorsAfter(slots, n);
        LookedUpWherePlaced(slots, n);
      }
    } else {
      assert After(1, 1) == Advance(1, After(1, 0)) == Cursors(0, -1);
      assert After(1, 2) == Advance(1, After(1, 1)) == Cursors(0, 1);
      assert After(1, 3).head == Advance(1, After(1, 2)).head == 1;
      assert GetIndex(1, 3) == 0;
    }
  }

  /** Going d slots on from a slot, d less than a full turn. */
  lemma {:induction false} SlotsOn(slots: nat, m: nat, d: nat)
    requires slots > 0 && m > 0 && d < slots
    ensures SlotOf(slots, m + d) == if SlotOf(slots, m) + d < slots then SlotOf(slots, m) + d else SlotOf(slots, m) + d - slots
  {
    if d > 0 {
      SlotsOn(slots, m, d - 1);
    }
  }

  /** Lists less than a full turn apart are in different slots. */
  lemma SlotsDiffer(slots: nat, m: nat, n: nat)
    requires slots > 0 && 0 < m < n < m + slots
    ensures SlotOf(slots, m) != SlotOf(slots, n)
  {
    SlotsOn(slots, m, n - m);
  }

  /** In a ring of one slot the third insertion leaves the ring, so the first n go
      into slots of the ring if and only if there are two slots or n is at most 2. */
  lemma InsertionsFitIff(slots: nat, n: nat)
    requires slots > 0
    ensures (forall m: nat | 0 < m <= n :: 0 <= After(slots, m).head < slots) <==> slots >= 2 || n <= 2
  {
    assert After(1, 1) == Advance(1, After(1, 0)) == Cursors(0, -1);
    assert After(1, 2) == Advance(1, After(1, 1)) == Cursors(0, 1);
    assert After(1, 3).head == Advance(1, After(1, 2)).head == 1;
    if slots >= 2 {
      forall m: nat | 0 < m <= n ensures 0 <= After(slots, m).head < slots {
        CursorsAfter(slots, m);
      }
    }
  }

  /** Of count lists that went into a ring for this limit, list n is still there. */
  predicate Kept(limit: nat, count: nat, n: int) {
    0 < n <= count < n + limit + 1
  }

  class Iterations<T(0)> {
    const throttleLimit: nat
    const p: array<List?<T>>
    const iterNumList: array<int>
    var head: int
    var tail: int
    /** Every list that was ever inserted, the list of iteration n at n - 1. */
    ghost var inserted: seq<List<T>>

    ghost predicate Valid()
      reads this, p, iterNumList
    {
      && p.Length == iterNumList.Length == throttleLimit + 1
      && Cursors(head, tail) == After(throttleLimit + 1, |inserted|)
      && (forall n: nat | InWindow(n) :: Holds(n))
      && (forall i: nat | |inserted| <= i < p.Length :: p[i] == null)
    }

    ghost predicate Holds(n: nat)
      requires 0 < n <= |inserted| && p.Length == iterNumList.Length == throttleLimit + 1
      reads this, p, iterNumList
    {
      p[SlotOf(throttleLimit + 1, n)] == inserted[n - 1] && iterNumList[SlotOf(throttleLimit + 1, n)] == n
    }

    /** The iterations whose lists are still there. */
    ghost predicate InWindow(n: int)
      reads this
    {
      Kept(throttleLimit, |inserted|, n)
    }

    constructor (limit: nat)
      ensures Valid() && inserted == [] && throttleLimit == limit
      ensures fresh(p) && fresh(iterNumList)
    {
      throttleLimit := limit;
      p := new List?<T>[limit + 1](_ => null);
      iterNumList := new int[limit + 1](_ => -1);
      head := -1;
      tail := -1;
      inserted := [];
    }

    /** As long as iteration n is in the window, the slot it is looked up in
        holds its own list. */
    method GetStageFrameList(n: int) returns (list: List<T>)
      requires Valid() && InWindow(n)
      ensures list == inserted[n - 1]
    {
      LookedUpWherePlaced(throttleLimit + 1, n);
      assert Holds(n);
      list := p[GetIndex(throttleLimit + 1, n)];
    }

    /** Moves the cursors to the slot of the next list. */
    method NextIndex() returns (index: int)
      requires (throttleLimit >= 1 || |inserted| < 2) && Cursors(head, tail) == After(throttleLimit + 1, |inserted|)
      modifies this`head, this`tail
      ensures Cursors(head, tail) == After(throttleLimit + 1, |inserted| + 1)
      ensures index == SlotOf(throttleLimit + 1, |inserted| + 1)
    {
      var slots := throttleLimit + 1;
      if throttleLimit >= 1 {
        CursorsMove(slots, |inserted|);
        CursorsAfter(slots, |inserted| + 1);
      } else {
        assert After(1, 1) == Advance(1, After(1, 0)) == Cursors(0, -1);
        assert After(1, 2) == Advance(1, After(1, 1)) == Cursors(0, 1);
      }
      if tail <= head && head + 1 < slots {
        head := head + 1;
        index := head;
      } else if tail < head {
        head := 0;
        index := head;
        tail := 1;
      } else if head < tail {
        head := head + 1;
        index := head;
        tail := (tail + 1) % slots;
      }
    }

    method InsertStageFrameList(iterNum: int) returns (list: List<T>)
      requires Valid() && iterNum == |inserted| + 1 && (throttleLimit >= 1 || iterNum <= 2)
      modifies this, p, iterNumList
      ensures Valid() && inserted == old(inserted) + [list]
      ensures fresh(list) && fresh(list.p) && list.Valid() && list.Contents() == []
    {
      var index := NextIndex();
      list := new List<T>();
      p[index] := list;
      iterNumList[index] := iterNum;
      inserted := inserted + [list];
      forall n: nat | InWindow(n) ensures Holds(n) {
        if n < iterNum {
          SlotsDiffer(throttleLimit + 1, n, iterNum);
          assert old(Holds(n));
        }
      }
      if iterNum <= p.Length && throttleLimit >= 1 {
        CursorsAfter(throttleLimit + 1, iterNum);
      }
    }
  }
}
