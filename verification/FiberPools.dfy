/** A pool in memory, and the functions that take fibers from it, return them to
    it and destroy it. */
module FiberPools {
  import opened Basics
  import opened FiberPool

  function After(ps: seq<CilkFiberPool>, i: nat): CilkFiberPool? { if i + 1 < |ps| then ps[i + 1] else null }

  /** The pools from one pool up to the root are different, as are their arrays. */
  ghost predicate IsChain(ps: seq<CilkFiberPool>) {
    && |ps| > 0
    && (forall i {:trigger ps[i].chain} | 0 <= i < |ps| :: ps[i].chain == ps[i..])
    && (forall i {:trigger ps[i].parent} | 0 <= i < |ps| :: ps[i].parent == After(ps, i))
    && (forall i, j | 0 <= i < j < |ps| :: ps[i] != ps[j] && ps[i].fibers != ps[j].fibers)
  }

  ghost predicate SizesOk(ps: seq<CilkFiberPool>)
    reads ps
  {
    forall i | 0 <= i < |ps| :: ps[i].size <= ps[i].fibers.Length
  }

  function Arrays(ps: seq<CilkFiberPool>): set<array<Fiber>> {
    set i | 0 <= i < |ps| :: ps[i].fibers
  }

  ghost function Values(ps: seq<CilkFiberPool>): (vs: seq<Pool>)
    requires SizesOk(ps)
    reads ps, Arrays(ps)
    ensures |vs| == |ps| && forall i | 0 <= i < |ps| :: vs[i] == ps[i].Value()
  {
    seq(|ps|, i requires 0 <= i < |ps| && ps[i].size <= ps[i].fibers.Length reads ps, Arrays(ps) => ps[i].Value())
  }

  lemma TailIsChain(ps: seq<CilkFiberPool>)
    requires IsChain(ps) && |ps| > 1
    ensures IsChain(ps[1..]) && ps[0].parent == ps[1] && ps[1].chain == ps[1..]
    ensures ps[1].parent == null <==> |ps| == 2
    ensures |ps| > 2 ==> ps[1].parent == ps[2] && ps[2].chain == ps[2..]
    ensures ps[0] !in ps[1..]
  {
    forall i | 0 <= i < |ps[1..]| ensures ps[1..][i].chain == ps[1..][i..] && ps[1..][i].parent == After(ps[1..], i) {
      assert ps[1..][i] == ps[i + 1] && ps[1..][i..] == ps[i + 1..];
      assert After(ps[1..], i) == After(ps, i + 1);
    }
  }

  lemma LongerChain(p: CilkFiberPool, ps: seq<CilkFiberPool>)
    requires p.chain == [p] + ps && (if |ps| == 0 then p.parent == null else IsChain(ps) && p.parent == ps[0])
    requires forall i | 0 <= i < |ps| :: ps[i] != p && ps[i].fibers != p.fibers
    ensures IsChain(p.chain)
  {
    var c := p.chain;
    forall i | 0 <= i < |c| ensures c[i].chain == c[i..] && c[i].parent == After(c, i) {
      if i > 0 {
        assert c[i] == ps[i - 1] && c[i..] == ps[i - 1..] && After(c, i) == After(ps, i - 1);
      } else {
        assert c[0..] == c;
      }
    }
  }

  lemma SplitValues(ps: seq<CilkFiberPool>)
    requires |ps| > 0 && ps[0].size <= ps[0].fibers.Length && SizesOk(ps[1..])
    ensures SizesOk(ps) && Values(ps) == [ps[0].Value()] + Values(ps[1..])
  {
    assert forall i | 0 < i < |ps| :: ps[i] == ps[1..][i - 1];
  }

  lemma SplitSizes(ps: seq<CilkFiberPool>)
    requires |ps| > 0 && SizesOk(ps)
    ensures ps[0].size <= ps[0].fibers.Length && SizesOk(ps[1..])
  {
    assert forall i | 0 < i < |ps| :: ps[i] == ps[1..][i - 1];
  }

  class CilkFiberPool {
    const parent: CilkFiberPool?
    const fibers: array<Fiber>
    var size: nat
    var total: int
    var highWater: int
    var allocMax: int

    /** This pool, its parent, and so on up to the root. */
    ghost const chain: seq<CilkFiberPool>

    ghost predicate Valid()
      reads chain
    {
      && IsChain(chain) && chain[0] == this && SizesOk(chain)
      && (parent == null <==> |chain| == 1)
      && (parent != null ==> parent == chain[1] && parent.size <= parent.fibers.Length && parent.chain == chain[1..])
    }

    /** This pool and its parent, with their arrays. */
    ghost function Near(): set<object> {
      {this, fibers} + if parent == null then {} else {parent, parent.fibers}
    }

    function Value(): Pool
      requires size <= fibers.Length
      reads this, fibers
    {
      Pool(fibers.Length, allocMax, fibers[..size], total, highWater)
    }

    constructor (parent: CilkFiberPool?, bufferSize: nat, allocMax: int)
      requires parent != null ==> parent.Valid()
      ensures Valid() && fresh(fibers) && this.parent == parent
      ensures Value() == Pool(bufferSize, allocMax, [], 0, 0)
    {
      this.parent := parent;
      this.allocMax := allocMax;
      size, total, highWater := 0, 0, 0;
      fibers := new Fiber[bufferSize](_ => 0);
      chain := [this] + (if parent == null then [] else parent.chain);
      new;
      LongerChain(this, if parent == null then [] else parent.chain);
    }

    method IncrementPoolTotal()
      modifies `total, `highWater
      ensures total == old(total) + 1 && highWater == if old(highWater) < total then total else old(highWater)
    {
      total := total + 1;
      if highWater < total {
        highWater := total;
      }
    }

    /** Looks in this pool, then in the heap if the limit allows. */
    method AllocateHere(give: Option<Fiber>) returns (ret: Option<Fiber>)
      requires size <= fibers.Length
      modifies `size, `total, `highWater
      ensures size <= fibers.Length && (Value(), ret) == AskedHere(old(Value()), give)
    {
      if size > 0 {
        size := size - 1;
        assert fibers[..size] == old(fibers[..size])[..size];
        return Some(fibers[size]);
      }
      var canAllocateFromHeap := false;
      if total < allocMax {
        IncrementPoolTotal();
        canAllocateFromHeap := true;
      }
      if canAllocateFromHeap {
        if give.Some? {
          return give;
        }
        total := total - 1;
      }
      ret := None;
    }

    /** Looks in this pool, then in its parent, and so on up to the root. */
    method Allocate(gives: seq<Option<Fiber>>) returns (ret: Option<Fiber>)
      requires Valid() && |gives| == |chain|
      modifies chain
      ensures Valid()
      ensures (Values(chain), ret) == Allocated(old(Values(chain)), gives)
      decreases |chain|, 1
    {
      SplitSizes(chain);
      SplitValues(chain);
      ghost var vs, rest, here := Values(chain), Values(chain[1..]), AskedHere(Value(), gives[0]);
      assert vs[1..] == rest;
      if parent != null { TailIsChain(chain); }
      ret := AllocateHere(gives[0]);
      assert Values(chain[1..]) == rest;
      if ret.None? && parent != null {
        ret := AllocateFromParent(gives[1..]);
      }
      SplitValues(chain);
    }

    method AllocateFromParent(gives: seq<Option<Fiber>>) returns (ret: Option<Fiber>)
      requires Valid() && parent != null && |gives| == |chain| - 1 && SizesOk(chain[1..])
      modifies parent.chain
      ensures Valid() && SizesOk(chain[1..]) && Value() == old(Value())
      ensures (Values(chain[1..]), ret) == Allocated(old(Values(chain[1..])), gives)
      decreases |chain|, 0
    {
      TailIsChain(chain);
      assert parent.chain == chain[1..] && this !in parent.chain;
      ret := parent.Allocate(gives);
      assert fibers[..] == old(fibers[..]);
      SplitValues(chain);
    }

    /** Moves fibers up until the parent is full or few enough are left. */
    method MoveWhileThereIsRoom(numToKeep: nat)
      requires Valid() && parent != null && parent.size < parent.fibers.Length
      modifies `size, parent`size, parent.fibers
      ensures size <= fibers.Length && parent.size <= parent.fibers.Length
      ensures var p, q := old(Value()), old(parent.Value());
              && size == |p.fibers| - MoveCount(p, q, numToKeep) && fibers[..size] == p.fibers[..size]
              && parent.fibers[..parent.size] == q.fibers + Top(p, MoveCount(p, q, numToKeep))
    {
      ghost var p, q := Value(), parent.Value();
      while parent.size < parent.fibers.Length && size > numToKeep
        invariant size <= |p.fibers| && parent.size == |q.fibers| + |p.fibers| - size
        invariant |p.fibers| - size <= MoveCount(p, q, numToKeep)
        invariant parent.size <= parent.fibers.Length
        invariant parent.fibers[..parent.size] == q.fibers + Top(p, |p.fibers| - size)
        invariant fibers[..] == old(fibers[..])
        decreases size
      {
        size := size - 1;
        parent.fibers[parent.size] := fibers[size];
        parent.size := parent.size + 1;
        assert Top(p, |p.fibers| - size) == Top(p, |p.fibers| - size - 1) + [p.fibers[size]];
      }
      assert fibers[..size] == old(fibers[..])[..size] == p.fibers[..size];
    }

    method MoveFibersToParentPool(numToKeep: nat)
      requires Valid() && parent != null
      modifies this, parent, parent.fibers
      ensures Valid()
      ensures (Value(), parent.Value()) == Moved(old(Value()), old(parent.Value()), numToKeep)
      ensures HandsUp(old(Value()), old(parent.Value()), numToKeep, Value(), parent.Value())
      ensures allocMax == old(allocMax)
    {
      MovedHandsUp(Value(), parent.Value(), numToKeep);
      if parent.size >= parent.fibers.Length {
        return;
      }
      MoveWhileThereIsRoom(numToKeep);
      if total < 0 {
        parent.total := parent.total + total;
        total := 0;
      }
    }

    method MoveToParentIfAny(numToKeep: nat)
      requires Valid()
      modifies Near()
      ensures Valid() && (parent == null ==> Value() == old(Value()))
      ensures parent != null ==> fibers != parent.fibers
      ensures parent != null ==> (Value(), parent.Value()) == Moved(old(Value()), old(parent.Value()), numToKeep)
      ensures parent != null ==> HandsUp(old(Value()), old(parent.Value()), numToKeep, Value(), parent.Value())
    {
      if parent != null {
        MoveFibersToParentPool(numToKeep);
      }
    }

    /** Takes the fibers of one batch from the pool. */
    method TakeBatch(numToKeep: nat) returns (fibersToFree: seq<Fiber>)
      requires size <= fibers.Length
      modifies `size, `total
      ensures size <= fibers.Length && Value() == WithoutBatch(old(Value()), numToKeep)
      ensures fibersToFree == Top(old(Value()), BatchCount(old(Value()), numToKeep))
    {
      ghost var p := Value();
      fibersToFree := [];
      while size > numToKeep && |fibersToFree| < BATCH
        invariant size <= |p.fibers| && |fibersToFree| == |p.fibers| - size <= BatchCount(p, numToKeep)
        invariant fibersToFree == Top(p, |p.fibers| - size) && total == p.total
      {
        size := size - 1;
        fibersToFree := fibersToFree + [fibers[size]];
      }
      total := total - |fibersToFree|;
      assert BatchCount(p, numToKeep) == |fibersToFree|;
      assert fibers[..size] == p.fibers[..size];
    }

    /** One locked region: takes a batch, and stores the extra fiber if it is done. */
    method FreeRound(numToKeep: nat, extra: Option<Fiber>) returns (fibersToFree: seq<Fiber>, lastFiberReturned: bool)
      requires size <= fibers.Length && (extra.Some? ==> numToKeep < fibers.Length)
      modifies `size, `total, fibers
      ensures size <= fibers.Length && Value() == FreedBatch(old(Value()), numToKeep, extra)
      ensures fibersToFree == Top(old(Value()), BatchCount(old(Value()), numToKeep))
      ensures lastFiberReturned <==> Above(old(Value()), numToKeep) <= BATCH
    {
      fibersToFree := TakeBatch(numToKeep);
      lastFiberReturned := false;
      if size <= numToKeep {
        if extra.Some? {
          Push(extra.value);
        }
        lastFiberReturned := true;
      }
    }

    /** Frees fibers in batches until at most numToKeep are left, then stores the
        extra one; freed lists the fibers that went back to the heap. */
    method FreeFibersFromPool(numToKeep: nat, extra: Option<Fiber>) returns (freed: seq<Fiber>)
      requires size <= fibers.Length && (extra.Some? ==> numToKeep < fibers.Length)
      modifies `size, `total, fibers
      ensures size <= fibers.Length
      ensures Value() == FreedDown(old(Value()), numToKeep, extra)
      ensures freed == Top(old(Value()), Above(old(Value()), numToKeep))
    {
      freed := [];
      ghost var goal, all := FreedDown(Value(), numToKeep, extra), Top(Value(), Above(Value(), numToKeep));
      var lastFiberReturned := false;
      while !lastFiberReturned
        invariant size <= fibers.Length
        invariant lastFiberReturned ==> Value() == goal && freed == all
        invariant !lastFiberReturned ==> FreedDown(Value(), numToKeep, extra) == goal
        invariant !lastFiberReturned ==> freed + Top(Value(), Above(Value(), numToKeep)) == all
        decreases if lastFiberReturned then 0 else 1 + Above(Value(), numToKeep)
      {
        ghost var before := freed;
        RoundsFreeDown(Value(), numToKeep, extra);
        BatchThenRest(Value(), numToKeep, extra);
        var fibersToFree: seq<Fiber>;
        fibersToFree, lastFiberReturned := FreeRound(numToKeep, extra);
        freed := freed + fibersToFree;
        if lastFiberReturned {
          assert all == before + (fibersToFree + []);
        } else {
          assert all == before + (fibersToFree + Top(Value(), Above(Value(), numToKeep)));
        }
      }
    }

    method Push(fiber: Fiber)
      requires size < fibers.Length
      modifies `size, fibers
      ensures size == old(size) + 1 <= fibers.Length && Value() == Pushed(old(Value()), fiber)
    {
      fibers[size] := fiber;
      size := size + 1;
    }

    /** Hands fibers to the parent, and frees the one that is still in the way. */
    method MakeRoomAndPush(fiber: Fiber) returns (freed: seq<Fiber>)
      requires Valid() && fibers.Length > 0 && size == fibers.Length
      modifies Near()
      ensures Valid()
      ensures parent == null ==> Value() == Returned(old(Value()), fiber)
      ensures parent != null ==> Value() == Returned(Relieved(old(Value()), old(parent.Value())).0, fiber)
      ensures parent != null ==> parent.Value() == Relieved(old(Value()), old(parent.Value())).1
      ensures parent == null ==> freed == Top(old(Value()), 1)
      ensures parent != null ==> StoresInPlace(old(Value()), old(parent.Value()), fiber, Value(), parent.Value(), freed)
    {
      if parent == null {
        freed := FreeFibersFromPool(fibers.Length - 1, Some(fiber));
      } else {
        freed := MakeRoomAbove(fiber);
      }
    }

    method MakeRoomAbove(fiber: Fiber) returns (freed: seq<Fiber>)
      requires Valid() && fibers.Length > 0 && size == fibers.Length && parent != null
      modifies Near()
      ensures Valid()
      ensures Value() == Returned(Relieved(old(Value()), old(parent.Value())).0, fiber)
      ensures parent.Value() == Relieved(old(Value()), old(parent.Value())).1
      ensures StoresInPlace(old(Value()), old(parent.Value()), fiber, Value(), parent.Value(), freed)
    {
      ghost var p, q := Value(), parent.Value();
      ghost var r := Relieved(p, q);
      MoveFibersToParentPool(fibers.Length / 2 + fibers.Length / 4);
      assert Value() == r.0 && parent.Value() == r.1;
      freed := FreeFibersFromPool(fibers.Length - 1, Some(fiber));
      assert parent.Value() == r.1 && Value() == Returned(r.0, fiber);
      RelievedStores(p, q, fiber);
    }

    /** Returns a fiber that nobody uses any more; freed lists the fibers that went back
        to the heap for it. */
    method DeallocateSelf(fiber: Fiber) returns (freed: seq<Fiber>)
      requires Valid() && fibers.Length > 0
      modifies Near()
      ensures Valid()
      ensures parent == null ==> Value() == Returned(old(Value()), fiber)
      ensures parent != null ==> Value() == Returned(Relieved(old(Value()), old(parent.Value())).0, fiber)
      ensures parent != null ==> parent.Value() == Relieved(old(Value()), old(parent.Value())).1
      ensures parent == null ==> freed == Top(old(Value()), if old(size) < fibers.Length then 0 else 1)
      ensures parent != null ==> StoresInPlace(old(Value()), old(parent.Value()), fiber, Value(), parent.Value(), freed)
    {
      if size < fibers.Length {
        ReturnedToRoom(Value(), fiber);
        Push(fiber);
        freed := [];
      } else {
        freed := MakeRoomAndPush(fiber);
      }
    }

    /** Gives the idle fibers to the parent as far as it has room, and frees the
        rest. */
    method Destroy() returns (freed: seq<Fiber>)
      requires Valid()
      modifies Near()
      ensures Valid() && size == 0
      ensures var m := if parent == null then old(Value()) else Moved(old(Value()), old(parent.Value()), 0).0;
              Value() == FreedDown(m, 0, None) && freed == Top(m, |m.fibers|)
      ensures parent != null ==> parent.Value() == Moved(old(Value()), old(parent.Value()), 0).1
      ensures parent == null ==> freed == Top(old(Value()), old(size))
      ensures parent != null ==> parent.Value().fibers + freed == old(parent.Value().fibers) + Top(old(Value()), old(size))
      ensures parent != null && freed != [] ==> parent.size >= parent.fibers.Length
    {
      MoveToParentIfAny(0);
      ghost var m := Value();
      if parent != null {
        UpOrFreed(old(Value()), old(parent.Value()), 0, m, parent.Value(), 0);
      }
      freed := FreeFibersFromPool(0, None);
    }
  }
}
