/** The allocator itself, with its loops over free lists. */
module FrameAllocator {
  import opened FrameSizes
  import opened FrameAmortised
  import opened FrameMalloc

  /** What an allocation returns: a block, or memory straight from the system. */
  datatype Frame = Bucketed(block: Block) | Large(size: nat)

  function SetAt(ps: seq<seq<nat>>, w: nat, i: nat, v: nat): seq<seq<nat>>
    requires w < |ps| && i < |ps[w]|
  {
    var row: seq<nat> := ps[w][i := v];
    ps[w := row]
  }

  lemma SetAtTwice(ps: seq<seq<nat>>, w: nat, i: nat, u: nat, v: nat)
    requires w < |ps| && i < |ps[w]|
    ensures SetAt(SetAt(ps, w, i, u), w, i, v) == SetAt(ps, w, i, v)
    ensures SetAt(ps, w, i, ps[w][i]) == ps
  {
    assert SetAt(SetAt(ps, w, i, u), w, i, v)[w] == SetAt(ps, w, i, v)[w];
    assert SetAt(ps, w, i, ps[w][i])[w] == ps[w];
  }

  class Allocator {
    var globalFreeList: Lists
    var freeLists: seq<Lists>
    var potentials: seq<seq<nat>>
    var chunks: nat
    var poolBegin: nat
    var poolEnd: nat
    var allocatedFromOs: nat
    var allocatedFromGlobalPool: int
    var wasted: nat
    ghost var inUse: Lists
    ghost var carved: seq<Block>

    ghost function View(): State
      reads this
    {
      State(globalFreeList, freeLists, inUse, chunks, poolBegin, poolEnd, allocatedFromOs, allocatedFromGlobalPool, wasted, carved)
    }

    ghost predicate Valid()
      reads this
    {
      && Inv(View()) && |potentials| == |freeLists|
      && forall w | 0 <= w < |potentials| :: |potentials[w]| == NBUCKETS
    }

    predicate HasWorker(w: nat, i: nat)
      reads this
    {
      w < |freeLists| && i < NBUCKETS
    }

    /** A worker's list of one bucket, as the collector sees it. */
    function CacheOf(w: nat, i: nat): Cache
      reads this
      requires HasWorker(w, i) && |potentials| == |freeLists| && |freeLists[w]| == |potentials[w]| == NBUCKETS
    {
      Cache(|freeLists[w][i]|, potentials[w][i], 0, 0, 0, 0)
    }

    constructor (nworkers: nat)
      ensures Valid() && |freeLists| == nworkers && carved == [] && IsEmpty(inUse)
    {
      var none: Lists := seq(NBUCKETS, _ => []);
      globalFreeList := none;
      freeLists := seq(nworkers, _ => none);
      potentials := seq(nworkers, _ => seq(NBUCKETS, _ => 0));
      chunks, poolBegin, poolEnd := 0, 0, 0;
      allocatedFromOs, allocatedFromGlobalPool, wasted := 0, 0, 0;
      inUse := none;
      carved := [];
      new;
      NoBytesNoBlocks(none);
      EmptyWorkers(freeLists);
      forall b ensures Conserved(View(), b) {
        NothingHeld(none, b);
        NobodyHolds(freeLists, b);
      }
    }

    static lemma {:induction false} NothingHeld(l: Lists, b: Block)
      requires IsEmpty(l)
      ensures Holds(l, b) == 0
    {
      if |l| > 0 {
        assert IsEmpty(l[..|l| - 1]) && l[|l| - 1] == [];
        NothingHeld(l[..|l| - 1], b);
      }
    }

    static lemma {:induction false} NobodyHolds(ws: seq<Lists>, b: Block)
      requires forall w | 0 <= w < |ws| :: IsEmpty(ws[w])
      ensures AllHold(ws, b) == 0
    {
      if |ws| > 0 {
        NobodyHolds(ws[..|ws| - 1], b);
        NothingHeld(ws[|ws| - 1], b);
      }
    }

    /** A new chunk for the pool; the rest of the old one is wasted. */
    method ExtendGlobalPool()
      requires Valid()
      modifies this`wasted, this`chunks, this`poolBegin, this`poolEnd, this`allocatedFromOs
      ensures Valid() && chunks > 0 && poolBegin == 0 && poolEnd == CHUNK
      ensures View() == Extended(old(View()))
    {
      ExtendedKeepsInv(View());
      wasted := wasted + (poolEnd - poolBegin);
      chunks, poolBegin, poolEnd := chunks + 1, 0, CHUNK;
      allocatedFromOs := allocatedFromOs + CHUNK;
    }

    method CarveFor(w: nat, i: nat)
      requires Valid() && HasWorker(w, i) && poolBegin + SizeOf(i) <= poolEnd
      modifies this`allocatedFromGlobalPool, this`poolBegin, this`carved, this`freeLists
      ensures Valid() && View() == CarvedFor(old(View()), w, i)
    {
      CarvedForKeepsInv(View(), w, i);
      var mem := Block(chunks - 1, poolBegin, i);
      allocatedFromGlobalPool := allocatedFromGlobalPool + SizeOf(i);
      poolBegin := poolBegin + SizeOf(i);
      carved := carved + [mem];
      freeLists := freeLists[w := With(freeLists[w], mem)];
    }

    method TakeFor(w: nat, i: nat)
      requires Valid() && HasWorker(w, i) && |globalFreeList[i]| > 0
      modifies this`allocatedFromGlobalPool, this`globalFreeList, this`freeLists
      ensures Valid() && View() == Taken(old(View()), w, i)
    {
      TakenKeepsInv(View(), w, i);
      var mem := globalFreeList[i][0];
      allocatedFromGlobalPool := allocatedFromGlobalPool + SizeOf(i);
      globalFreeList := Without(globalFreeList, i, 0);
      freeLists := freeLists[w := With(freeLists[w], mem)];
    }

    /** One more block for a worker's list, from the global list or the pool. */
    method GlobalAllocFor(w: nat, i: nat)
      requires Valid() && HasWorker(w, i)
      modifies this
      ensures Valid() && potentials == old(potentials)
      ensures Supplies(old(View()), View(), w, i)
    {
      if |globalFreeList[i]| > 0 {
        TakenSupplies(View(), w, i);
        TakeFor(w, i);
      } else {
        CarvedSupplies(View(), w, i);
        if poolBegin + SizeOf(i) > poolEnd {
          ExtendGlobalPool();
        }
        CarveFor(w, i);
      }
    }

    /** One more block for the batch. */
    method AllocateOne(w: nat, i: nat)
      requires Valid() && HasWorker(w, i)
      modifies this
      ensures Valid() && Supplies(old(View()), View(), w, i)
      ensures potentials == SetAt(old(potentials), w, i, old(potentials[w][i]) + SizeOf(i))
    {
      potentials := SetAt(potentials, w, i, potentials[w][i] + SizeOf(i));
      GlobalAllocFor(w, i);
    }

    static function BatchBytes(size: nat): nat
      requires size > 0
    {
      BatchCount(size) * size
    }

    method AllocateBatch(w: nat, i: nat)
      requires Valid() && HasWorker(w, i) && freeLists[w][i] == []
      modifies this
      ensures Valid() && |freeLists| == |old(freeLists)|
      ensures SuppliesBatch(old(View()), View(), w, i, BatchCount(SizeOf(i)))
      ensures potentials == SetAt(old(potentials), w, i, old(potentials[w][i]) + BatchBytes(SizeOf(i)))
    {
      var size := SizeOf(i);
      var bytesAllocated: nat, n: nat := 0, 0;
      ghost var start, pots, pot := View(), potentials, potentials[w][i];
      SetAtTwice(pots, w, i, 0, 0);
      NothingSupplied(start, w, i);
      while n == 0 || bytesAllocated < BATCH_SIZE
        invariant Valid() && HasWorker(w, i) && bytesAllocated == n * size && n <= BatchCount(size)
        invariant SuppliesBatch(start, View(), w, i, n)
        invariant potentials == SetAt(pots, w, i, pot + bytesAllocated)
        decreases BatchCount(size) - n
      {
        ghost var before := View();
        BatchIsShort(n, size);
        SetAtTwice(pots, w, i, pot + bytesAllocated, pot + bytesAllocated + size);
        bytesAllocated := bytesAllocated + size;
        AllocateOne(w, i);
        OneMoreSupplied(start, before, View(), w, i, n);
        n := n + 1;
      }
      BatchIsShort(n, size);
    }

    static lemma BatchIsShort(n: nat, size: nat)
      requires 64 <= size <= MAX_SIZE
      ensures n * size < BATCH_SIZE <==> n < BatchCount(size)
      ensures n == 0 ==> n < BatchCount(size)
      ensures (n + 1) * size == n * size + size
    {
      var b := BatchCount(size);
      assert BATCH_SIZE <= b * size < BATCH_SIZE + size;
      if n < b {
        ProductMonotone(n, b - 1, size);
        assert (b - 1) * size == b * size - size;
      } else {
        ProductMonotone(b, n, size);
      }
    }

    /** Hands out the first block of a worker's list. */
    method PopFrom(w: nat, i: nat) returns (mem: Block)
      requires Valid() && HasWorker(w, i) && |freeLists[w][i]| > 0
      modifies this`freeLists, this`inUse
      ensures Valid() && mem == old(freeLists[w][i][0]) && View() == Popped(old(View()), w, i, 0)
    {
      PoppedKeepsInv(View(), w, i, 0);
      mem := freeLists[w][i][0];
      freeLists := freeLists[w := Without(freeLists[w], i, 0)];
      inUse := With(inUse, mem);
    }

    /** Hands out a block of bucket i, after a batch if the worker's list is empty. */
    method BlockFor(w: nat, i: nat) returns (mem: Block)
      requires Valid() && HasWorker(w, i)
      modifies this
      ensures Valid() && HasBucket(old(View()), w, i) && HasWorker(w, i)
      ensures GivesBlock(old(View()), View(), w, i, BatchCount(SizeOf(i)), mem)
      ensures CacheOf(w, i).length == AfterAlloc(old(CacheOf(w, i)), SizeOf(i)).length
      ensures CacheOf(w, i).potential == AfterAlloc(old(CacheOf(w, i)), SizeOf(i)).potential
    {
      ghost var start := View();
      if freeLists[w][i] == [] {
        AllocateBatch(w, i);
        BatchIsShort(0, SizeOf(i));
      }
      GivesFromList(start, View(), w, i, BatchCount(SizeOf(i)));
      mem := PopFrom(w, i);
    }

    method FrameMalloc(w: nat, requested: nat) returns (f: Frame)
      requires Valid() && w < |freeLists|
      modifies this
      ensures Valid() && |freeLists| == |old(freeLists)|
      ensures requested > MAX_SIZE ==> f == Large(requested) && View() == old(View())
      ensures requested <= MAX_SIZE ==> (
                var i := BucketFor(requested);
                && f.Bucketed? && f.block.bucket == i && requested <= SizeOf(i)
                && GivesBlock(old(View()), View(), w, i, BatchCount(SizeOf(i)), f.block)
                && CacheOf(w, i).length == AfterAlloc(old(CacheOf(w, i)), SizeOf(i)).length
                && CacheOf(w, i).potential == AfterAlloc(old(CacheOf(w, i)), SizeOf(i)).potential)
    {
      if requested > MAX_SIZE {
        return Large(requested);
      }
      var i := BucketOfSize(requested);
      var mem := BlockFor(w, i);
      f := Bucketed(mem);
    }

    /** Returns the block at place k of a worker's list to the global list. */
    method GlobalFree(w: nat, i: nat, k: nat)
      requires Valid() && HasWorker(w, i) && k < |freeLists[w][i]|
      modifies this
      ensures Valid() && potentials == old(potentials) && View() == Returned(old(View()), w, i, k)
    {
      ReturnedKeepsInv(View(), w, i, k);
      var mem := freeLists[w][i][k];
      allocatedFromGlobalPool := allocatedFromGlobalPool - SizeOf(i);
      freeLists := freeLists[w := Without(freeLists[w], i, k)];
      globalFreeList := With(globalFreeList, mem);
    }

    /** Returns the blocks behind the first kept ones, one after the other. */
    method ReturnRest(w: nat, i: nat, kept: nat) returns (ghost returned: nat)
      requires Valid() && HasWorker(w, i) && 0 < kept <= |freeLists[w][i]|
      modifies this
      ensures Valid() && HasBucket(old(View()), w, i) && HasWorker(w, i) && potentials == old(potentials)
      ensures SameSupply(old(View()), View()) && OnlyList(old(View()), View(), w, i, old(freeLists[w][i][..kept]))
      ensures returned == old(|freeLists[w][i]|) - kept
    {
      returned := 0;
      ghost var start := View();
      NothingDone(start, w, i);
      while kept < |freeLists[w][i]|
        invariant Valid() && HasWorker(w, i) && potentials == old(potentials)
        invariant SameSupply(start, View()) && OnlyList(start, View(), w, i, freeLists[w][i])
        invariant |start.workers[w][i]| == |freeLists[w][i]| + returned
        invariant kept <= |freeLists[w][i]| && freeLists[w][i][..kept] == start.workers[w][i][..kept]
        decreases |freeLists[w][i]|
      {
        ghost var before := View();
        ReturnedIsOnly(before, w, i, kept);
        GlobalFree(w, i, kept);
        returned := returned + 1;
        OnlyListAgain(start, before, View(), w, i, before.workers[w][i], freeLists[w][i]);
      }
      assert freeLists[w][i] == freeLists[w][i][..kept];
    }

    /** Keeps the head of the list and returns what is left after it. */
    method GcBucket(w: nat, i: nat) returns (ghost walked: nat)
      requires Valid() && HasWorker(w, i)
      modifies this
      ensures Valid() && HasBucket(old(View()), w, i) && HasWorker(w, i) && SameSupply(old(View()), View())
      ensures freeLists[w][i] <= old(freeLists[w][i]) && OnlyList(old(View()), View(), w, i, freeLists[w][i])
      ensures var c := Collected(old(CacheOf(w, i)), SizeOf(i));
              CacheOf(w, i).length == c.length && CacheOf(w, i).potential == c.potential && walked == c.walked
    {
      var size, pot := SizeOf(i), potentials[w][i];
      var list := freeLists[w][i];
      var newpot, p := 0, 0;
      while p < |list| && 2 * newpot < pot
        invariant p <= |list| && newpot == p * size
        invariant Passed(|list|, pot, size, 0) == Passed(|list|, pot, size, p)
        decreases |list| - p
      {
        p := p + 1;
        newpot := newpot + size;
      }
      walked := p;
      potentials := SetAt(potentials, w, i, newpot);
      NothingDone(View(), w, i);
      if p < |list| {
        ghost var returned := ReturnRest(w, i, p + 1);
        walked := walked + returned;
      }
    }

    method Push(w: nat, b: Block, ghost k: nat)
      requires Valid() && HasWorker(w, b.bucket) && k < |inUse[b.bucket]| && inUse[b.bucket][k] == b
      modifies this`potentials, this`inUse, this`freeLists
      ensures Valid() && |freeLists| == |old(freeLists)| && View() == Pushed(old(View()), w, b.bucket, k)
      ensures CacheOf(w, b.bucket) == old(CacheOf(w, b.bucket)).(
                length := old(CacheOf(w, b.bucket)).length + 1,
                potential := old(CacheOf(w, b.bucket)).potential + SizeOf(b.bucket))
    {
      var i := b.bucket;
      potentials := SetAt(potentials, w, i, potentials[w][i] + SizeOf(i));
      PushedKeepsInv(View(), w, i, k);
      inUse := Without(inUse, i, k);
      freeLists := freeLists[w := With(freeLists[w], b)];
    }

    /** The program gives a block back that it has allocated before. */
    method FrameFree(w: nat, f: Frame, requested: nat, ghost k: nat) returns (ghost walked: nat)
      requires Valid() && w < |freeLists|
      requires f.Large? <==> requested > MAX_SIZE
      requires f.Bucketed? ==> BucketFor(requested) == f.block.bucket
      requires f.Bucketed? ==> k < |inUse[f.block.bucket]| && inUse[f.block.bucket][k] == f.block
      modifies this
      ensures Valid() && |freeLists| == |old(freeLists)| && SameSupply(old(View()), View())
      ensures f.Large? ==> View() == old(View())
      ensures f.Bucketed? ==> (
                var i := f.block.bucket;
                && inUse == Without(old(inUse), i, k) && HasWorker(w, i)
                && freeLists[w][i] <= [f.block] + old(freeLists[w][i])
                && freeLists == old(freeLists)[w := old(freeLists[w])[i := freeLists[w][i]]])
      ensures f.Bucketed? ==> (
                var c := AfterFree(old(CacheOf(w, f.block.bucket)), SizeOf(f.block.bucket));
                && CacheOf(w, f.block.bucket).length == c.length && CacheOf(w, f.block.bucket).potential == c.potential
                && walked == c.walked)
    {
      walked := 0;
      if requested > MAX_SIZE {
        return;
      }
      var i := BucketOfSize(requested);
      walked := FreeBlock(w, f.block, k);
    }

    /** Puts a block back in front, and collects the bucket when it is due. */
    method FreeBlock(w: nat, b: Block, ghost k: nat) returns (ghost walked: nat)
      requires Valid() && HasWorker(w, b.bucket) && k < |inUse[b.bucket]| && inUse[b.bucket][k] == b
      modifies this
      ensures Valid() && |freeLists| == |old(freeLists)| && SameSupply(old(View()), View())
      ensures inUse == Without(old(inUse), b.bucket, k) && HasWorker(w, b.bucket)
      ensures freeLists[w][b.bucket] <= [b] + old(freeLists[w][b.bucket])
      ensures freeLists == old(freeLists)[w := old(freeLists[w])[b.bucket := freeLists[w][b.bucket]]]
      ensures var c := AfterFree(old(CacheOf(w, b.bucket)), SizeOf(b.bucket));
              && CacheOf(w, b.bucket).length == c.length && CacheOf(w, b.bucket).potential == c.potential
              && walked == c.walked
    {
      walked := 0;
      ghost var i, lists := b.bucket, freeLists;
      Push(w, b, k);
      ghost var pushed := freeLists[w][i];
      assert lists[w][i := pushed] == freeLists[w];
      if potentials[w][b.bucket] > POTENTIAL_LIMIT {
        walked := GcBucket(w, b.bucket);
        assert lists[w][i := pushed][i := freeLists[w][i]] == lists[w][i := freeLists[w][i]];
      }
    }

    method MoveBucketToGlobal(w: nat, i: nat)
      requires Valid() && HasWorker(w, i)
      modifies this
      ensures Valid() && inUse == old(inUse) && |freeLists| == |old(freeLists)| && SameSupply(old(View()), View())
      ensures freeLists == old(freeLists)[w := old(freeLists[w])[i := []]]
    {
      ghost var before := freeLists;
      assert before[w][i := freeLists[w][i]] == before[w];
      while freeLists[w][i] != []
        invariant Valid() && inUse == old(inUse) && HasWorker(w, i) && SameSupply(old(View()), View())
        invariant freeLists == before[w := before[w][i := freeLists[w][i]]]
        decreases |freeLists[w][i]|
      {
        ghost var l := freeLists[w];
        GlobalFree(w, i, 0);
        assert before[w][i := l[i]][i := freeLists[w][i]] == before[w][i := freeLists[w][i]];
      }
      potentials := SetAt(potentials, w, i, 0);
    }

    /** A worker leaves: everything it kept goes back. */
    method CleanupWorker(w: nat)
      requires Valid() && w < |freeLists|
      modifies this
      ensures Valid() && inUse == old(inUse) && |freeLists| == |old(freeLists)| && IsEmpty(freeLists[w])
      ensures SameSupply(old(View()), View())
      ensures forall v | 0 <= v < |freeLists| && v != w :: freeLists[v] == old(freeLists[v])
    {
      for i := 0 to NBUCKETS
        invariant Valid() && inUse == old(inUse) && |freeLists| == |old(freeLists)| && SameSupply(old(View()), View())
        invariant forall j | 0 <= j < i :: freeLists[w][j] == []
        invariant forall v | 0 <= v < |freeLists| && v != w :: freeLists[v] == old(freeLists[v])
      {
        MoveBucketToGlobal(w, i);
      }
    }

    /** At the end: the leak check, after all workers are cleaned up. */
    method GlobalCleanup() returns (leak: bool)
      requires Valid() && forall w | 0 <= w < |freeLists| :: IsEmpty(freeLists[w])
      ensures leak <==> !IsEmpty(inUse)
    {
      LeakCheckIsExact(View());
      leak := allocatedFromGlobalPool != 0;
    }
  }
}
