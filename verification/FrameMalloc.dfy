/** The frame allocator: chunks from the operating system are carved into blocks,
    and every block is on the global free list, on one worker's free list, or in
    use. */
module FrameMalloc {
  import opened Basics
  import opened FrameSizes
  import opened FrameAmortised

  const CHUNK: nat := 32 * 1024 - 128

  /** A block by its place in memory. Chunks do not overlap each other. */
  datatype Block = Block(chunk: nat, offset: nat, bucket: nat)

  predicate IsBlock(b: Block) { b.bucket < NBUCKETS }

  predicate Disjoint(a: Block, b: Block)
    requires IsBlock(a) && IsBlock(b)
  {
    a.chunk != b.chunk || a.offset + SizeOf(a.bucket) <= b.offset || b.offset + SizeOf(b.bucket) <= a.offset
  }

  // ------------------------------------------------------------------ free lists

  /** One list of blocks per bucket. */
  type Lists = seq<seq<Block>>

  predicate ListsOk(l: Lists) {
    |l| == NBUCKETS && forall i, k | 0 <= i < NBUCKETS && 0 <= k < |l[i]| :: l[i][k].bucket == i
  }

  /** How often a block is in a list, in the lists of one home, in all homes. */
  function Occurs(x: seq<Block>, b: Block): nat {
    if |x| == 0 then 0 else Occurs(x[..|x| - 1], b) + if x[|x| - 1] == b then 1 else 0
  }

  function Holds(l: Lists, b: Block): nat {
    if |l| == 0 then 0 else Holds(l[..|l| - 1], b) + Occurs(l[|l| - 1], b)
  }

  function AllHold(hs: seq<Lists>, b: Block): nat {
    if |hs| == 0 then 0 else AllHold(hs[..|hs| - 1], b) + Holds(hs[|hs| - 1], b)
  }

  function Bytes(l: Lists): nat
    requires |l| <= NBUCKETS
  {
    if |l| == 0 then 0 else Bytes(l[..|l| - 1]) + |l[|l| - 1]| * SizeOf(|l| - 1)
  }

  predicate HomesOk(hs: seq<Lists>) {
    forall h | 0 <= h < |hs| :: ListsOk(hs[h])
  }

  function AllBytes(hs: seq<Lists>): nat
    requires HomesOk(hs)
  {
    if |hs| == 0 then 0 else AllBytes(hs[..|hs| - 1]) + Bytes(hs[|hs| - 1])
  }

  function Without(l: Lists, i: nat, k: nat): Lists
    requires i < |l| && k < |l[i]|
  {
    l[i := l[i][..k] + l[i][k + 1..]]
  }

  function With(l: Lists, b: Block): Lists
    requires b.bucket < |l|
  {
    l[b.bucket := [b] + l[b.bucket]]
  }

  function One(c: bool): nat { if c then 1 else 0 }

  lemma {:induction false} OccursConcat(x: seq<Block>, y: seq<Block>, b: Block)
    ensures Occurs(x + y, b) == Occurs(x, b) + Occurs(y, b)
  {
    if |y| == 0 {
      assert x + y == x;
    } else {
      assert (x + y)[..|x + y| - 1] == x + y[..|y| - 1];
      OccursConcat(x, y[..|y| - 1], b);
    }
  }

  lemma {:induction false} HoldsUpdate(l: Lists, i: nat, x: seq<Block>, b: Block)
    requires i < |l|
    ensures Holds(l[i := x], b) + Occurs(l[i], b) == Holds(l, b) + Occurs(x, b)
  {
    var n := |l| - 1;
    if i == n {
      assert l[i := x][..n] == l[..n];
    } else {
      assert l[i := x][..n] == l[..n][i := x];
      HoldsUpdate(l[..n], i, x, b);
    }
  }

  lemma {:induction false} BytesUpdate(l: Lists, i: nat, x: seq<Block>)
    requires i < |l| <= NBUCKETS
    ensures Bytes(l[i := x]) + |l[i]| * SizeOf(i) == Bytes(l) + |x| * SizeOf(i)
  {
    var n := |l| - 1;
    if i == n {
      assert l[i := x][..n] == l[..n];
    } else {
      assert l[i := x][..n] == l[..n][i := x];
      BytesUpdate(l[..n], i, x);
    }
  }

  lemma WithoutHolds(l: Lists, i: nat, k: nat, b: Block)
    requires i < |l| && k < |l[i]|
    ensures Holds(Without(l, i, k), b) + One(l[i][k] == b) == Holds(l, b)
  {
    var x := l[i];
    assert x == (x[..k] + [x[k]]) + x[k + 1..];
    OccursConcat(x[..k] + [x[k]], x[k + 1..], b);
    OccursConcat(x[..k], [x[k]], b);
    OccursConcat(x[..k], x[k + 1..], b);
    HoldsUpdate(l, i, x[..k] + x[k + 1..], b);
    assert Occurs([x[k]], b) == One(x[k] == b) by { assert [x[k]][..0] == []; }
  }

  lemma WithHolds(l: Lists, x: Block, b: Block)
    requires x.bucket < |l|
    ensures Holds(With(l, x), b) == Holds(l, b) + One(x == b)
  {
    OccursConcat([x], l[x.bucket], b);
    HoldsUpdate(l, x.bucket, [x] + l[x.bucket], b);
    assert Occurs([x], b) == One(x == b) by { assert [x][..0] == []; }
  }

  lemma WithoutBytes(l: Lists, i: nat, k: nat)
    requires ListsOk(l) && i < NBUCKETS && k < |l[i]|
    ensures ListsOk(Without(l, i, k))
    ensures Bytes(Without(l, i, k)) + SizeOf(i) == Bytes(l)
  {
    var n := |l[i]| - 1;
    BytesUpdate(l, i, l[i][..k] + l[i][k + 1..]);
    assert (n + 1) * SizeOf(i) == n * SizeOf(i) + SizeOf(i);
  }

  lemma WithBytes(l: Lists, b: Block)
    requires ListsOk(l) && IsBlock(b)
    ensures ListsOk(With(l, b))
    ensures Bytes(With(l, b)) == Bytes(l) + SizeOf(b.bucket)
  {
    var i := b.bucket;
    BytesUpdate(l, i, [b] + l[i]);
    assert (|l[i]| + 1) * SizeOf(i) == |l[i]| * SizeOf(i) + SizeOf(i);
  }

  lemma {:induction false} AllHoldUpdate(hs: seq<Lists>, h: nat, x: Lists, b: Block)
    requires h < |hs|
    ensures AllHold(hs[h := x], b) + Holds(hs[h], b) == AllHold(hs, b) + Holds(x, b)
  {
    var n := |hs| - 1;
    if h == n {
      assert hs[h := x][..n] == hs[..n];
    } else {
      assert hs[h := x][..n] == hs[..n][h := x];
      AllHoldUpdate(hs[..n], h, x, b);
    }
  }

  lemma {:induction false} AllBytesUpdate(hs: seq<Lists>, h: nat, x: Lists)
    requires h < |hs| && HomesOk(hs) && ListsOk(x)
    ensures HomesOk(hs[h := x])
    ensures AllBytes(hs[h := x]) + Bytes(hs[h]) == AllBytes(hs) + Bytes(x)
  {
    var n := |hs| - 1;
    if h == n {
      assert hs[h := x][..n] == hs[..n];
    } else {
      assert hs[h := x][..n] == hs[..n][h := x];
      AllBytesUpdate(hs[..n], h, x);
    }
  }

  // -------------------------------------------------------------- the whole state

  /** Workers' lists and potentials; `inUse` is what the program holds. */
  datatype State = State(
    global: Lists, workers: seq<Lists>, inUse: Lists,
    chunks: nat, poolBegin: nat, poolEnd: nat,
    allocatedFromOs: nat, allocatedFromGlobalPool: int, wasted: nat,
    carved: seq<Block>)

  /** The bytes that have left the global pool. */
  function BytesOut(s: State): nat
    requires ListsOk(s.inUse) && HomesOk(s.workers)
  {
    Bytes(s.inUse) + AllBytes(s.workers)
  }

  function CarvedBytes(c: seq<Block>): nat
    requires forall k {:trigger c[k]} | 0 <= k < |c| :: IsBlock(c[k])
  {
    assert |c| > 0 ==> IsBlock(c[|c| - 1]);
    if |c| == 0 then 0 else CarvedBytes(c[..|c| - 1]) + SizeOf(c[|c| - 1].bucket)
  }

  /** A carved block lies in a chunk, and in the current one before the pool. */
  predicate Placed(s: State, b: Block) {
    && IsBlock(b) && b.chunk < s.chunks && b.offset + SizeOf(b.bucket) <= CHUNK
    && (b.chunk + 1 == s.chunks ==> b.offset + SizeOf(b.bucket) <= s.poolBegin)
  }

  ghost predicate CarvedOk(s: State) {
    && (forall k | 0 <= k < |s.carved| :: Placed(s, s.carved[k]))
    && (forall j, k | 0 <= j < k < |s.carved| :: Disjoint(s.carved[j], s.carved[k]))
  }

  /** A block is in as many places as it was carved times. */
  predicate Conserved(s: State, b: Block) {
    AllHold(s.workers, b) + Holds(s.global, b) + Holds(s.inUse, b) == Occurs(s.carved, b)
  }

  ghost predicate Inv(s: State) {
    && ListsOk(s.global) && ListsOk(s.inUse) && HomesOk(s.workers)
    && s.poolBegin <= s.poolEnd && s.poolEnd == (if s.chunks == 0 then 0 else CHUNK)
    && CarvedOk(s)
    && (forall b {:trigger Conserved(s, b)} :: Conserved(s, b))
    && s.allocatedFromOs == CHUNK * s.chunks
    && s.allocatedFromOs == CarvedBytes(s.carved) + s.wasted + (s.poolEnd - s.poolBegin)
    && s.allocatedFromGlobalPool == BytesOut(s)
    && CarvedBytes(s.carved) == Bytes(s.global) + BytesOut(s)
  }

  // ------------------------------------------------------------------- main laws

  lemma {:induction false} CarvedOnce(c: seq<Block>, b: Block)
    requires forall k | 0 <= k < |c| :: IsBlock(c[k])
    requires forall j, k | 0 <= j < k < |c| :: Disjoint(c[j], c[k])
    ensures Occurs(c, b) == One(b in c)
  {
    if |c| > 0 {
      var n := |c| - 1;
      CarvedOnce(c[..n], b);
      assert b in c[..n] ==> Disjoint(b, c[n]) by {
        if k :| 0 <= k < n && c[k] == b { assert Disjoint(c[k], c[n]); }
      }
      assert c == c[..n] + [c[n]];
    }
  }

  /** Every carved block is in exactly one place: once on one list. */
  lemma EveryBlockHasOneHome(s: State, b: Block)
    requires Inv(s)
    ensures AllHold(s.workers, b) + Holds(s.global, b) + Holds(s.inUse, b) == One(b in s.carved)
  {
    assert Conserved(s, b);
    assert forall k | 0 <= k < |s.carved| :: Placed(s, s.carved[k]);
    CarvedOnce(s.carved, b);
  }

  predicate IsEmpty(l: Lists) { forall i | 0 <= i < |l| :: l[i] == [] }

  lemma {:induction false} NoBytesNoBlocks(l: Lists)
    requires |l| <= NBUCKETS
    ensures Bytes(l) == 0 <==> IsEmpty(l)
  {
    if |l| > 0 {
      var n := |l| - 1;
      NoBytesNoBlocks(l[..n]);
      if |l[n]| > 0 {
        assert |l[n]| * SizeOf(n) >= SizeOf(n) by { ProductMonotone(1, |l[n]|, SizeOf(n)); }
      }
      assert IsEmpty(l) <==> IsEmpty(l[..n]) && l[n] == [];
    }
  }

  lemma {:induction false} EmptyWorkers(ws: seq<Lists>)
    requires HomesOk(ws) && forall w | 0 <= w < |ws| :: IsEmpty(ws[w])
    ensures AllBytes(ws) == 0
  {
    if |ws| > 0 {
      EmptyWorkers(ws[..|ws| - 1]);
      NoBytesNoBlocks(ws[|ws| - 1]);
    }
  }

  /** Once all workers have been cleaned up the leak check fires exactly if some
      block has not been freed. */
  lemma LeakCheckIsExact(s: State)
    requires Inv(s) && forall w | 0 <= w < |s.workers| :: IsEmpty(s.workers[w])
    ensures s.allocatedFromGlobalPool != 0 <==> !IsEmpty(s.inUse)
  {
    EmptyWorkers(s.workers);
    NoBytesNoBlocks(s.inUse);
  }

  /** The other check of the clean-up never fires. */
  lemma NeverCorrupted(s: State)
    requires Inv(s)
    ensures Bytes(s.global) <= s.allocatedFromOs
  {
  }

  // --------------------------------------------------------------------- moves

  lemma CarvedStays(s: State, s': State)
    requires CarvedOk(s) && s'.carved == s.carved && s'.chunks == s.chunks && s'.poolBegin == s.poolBegin
    ensures CarvedOk(s')
  {
    forall k | 0 <= k < |s'.carved| ensures Placed(s', s'.carved[k]) {
      assert Placed(s, s.carved[k]);
    }
  }

  /** A block goes from the head of a worker's list to the program. */
  function Popped(s: State, w: nat, i: nat, k: nat): State
    requires w < |s.workers| && i < |s.workers[w]| && k < |s.workers[w][i]| && s.workers[w][i][k].bucket < |s.inUse|
  {
    s.(workers := s.workers[w := Without(s.workers[w], i, k)], inUse := With(s.inUse, s.workers[w][i][k]))
  }

  lemma PoppedKeepsInv(s: State, w: nat, i: nat, k: nat)
    requires Inv(s) && w < |s.workers| && i < NBUCKETS && k < |s.workers[w][i]|
    ensures Inv(Popped(s, w, i, k))
  {
    var x, s' := s.workers[w][i][k], Popped(s, w, i, k);
    WithoutBytes(s.workers[w], i, k);
    WithBytes(s.inUse, x);
    AllBytesUpdate(s.workers, w, Without(s.workers[w], i, k));
    forall b ensures Conserved(s', b) {
      assert Conserved(s, b);
      WithoutHolds(s.workers[w], i, k, b);
      WithHolds(s.inUse, x, b);
      AllHoldUpdate(s.workers, w, Without(s.workers[w], i, k), b);
    }
    CarvedStays(s, s');
  }

  /** A block the program holds goes to the head of a worker's list. */
  function Pushed(s: State, w: nat, i: nat, k: nat): State
    requires w < |s.workers| && i < |s.inUse| && k < |s.inUse[i]| && s.inUse[i][k].bucket < |s.workers[w]|
  {
    s.(inUse := Without(s.inUse, i, k), workers := s.workers[w := With(s.workers[w], s.inUse[i][k])])
  }

  lemma PushedKeepsInv(s: State, w: nat, i: nat, k: nat)
    requires Inv(s) && w < |s.workers| && i < NBUCKETS && k < |s.inUse[i]|
    ensures Inv(Pushed(s, w, i, k))
  {
    var x, s' := s.inUse[i][k], Pushed(s, w, i, k);
    WithoutBytes(s.inUse, i, k);
    WithBytes(s.workers[w], x);
    AllBytesUpdate(s.workers, w, With(s.workers[w], x));
    forall b ensures Conserved(s', b) {
      assert Conserved(s, b);
      WithoutHolds(s.inUse, i, k, b);
      WithHolds(s.workers[w], x, b);
      AllHoldUpdate(s.workers, w, With(s.workers[w], x), b);
    }
    CarvedStays(s, s');
  }

  /** A block of a worker's list goes back to the global list. */
  function Returned(s: State, w: nat, i: nat, k: nat): State
    requires w < |s.workers| && i < |s.workers[w]| && k < |s.workers[w][i]| && s.workers[w][i][k].bucket < |s.global| && i < NBUCKETS
  {
    s.(workers := s.workers[w := Without(s.workers[w], i, k)], global := With(s.global, s.workers[w][i][k]),
       allocatedFromGlobalPool := s.allocatedFromGlobalPool - SizeOf(i))
  }

  lemma ReturnedKeepsInv(s: State, w: nat, i: nat, k: nat)
    requires Inv(s) && w < |s.workers| && i < NBUCKETS && k < |s.workers[w][i]|
    ensures Inv(Returned(s, w, i, k))
  {
    var x, s' := s.workers[w][i][k], Returned(s, w, i, k);
    WithoutBytes(s.workers[w], i, k);
    WithBytes(s.global, x);
    AllBytesUpdate(s.workers, w, Without(s.workers[w], i, k));
    forall b ensures Conserved(s', b) {
      assert Conserved(s, b);
      WithoutHolds(s.workers[w], i, k, b);
      WithHolds(s.global, x, b);
      AllHoldUpdate(s.workers, w, Without(s.workers[w], i, k), b);
    }
    CarvedStays(s, s');
  }

  /** A worker gets the first block of the global list. */
  function Taken(s: State, w: nat, i: nat): State
    requires w < |s.workers| && i < |s.global| && |s.global[i]| > 0 && s.global[i][0].bucket < |s.workers[w]| && i < NBUCKETS
  {
    s.(global := Without(s.global, i, 0), workers := s.workers[w := With(s.workers[w], s.global[i][0])],
       allocatedFromGlobalPool := s.allocatedFromGlobalPool + SizeOf(i))
  }

  lemma TakenKeepsInv(s: State, w: nat, i: nat)
    requires Inv(s) && w < |s.workers| && i < NBUCKETS && |s.global[i]| > 0
    ensures Inv(Taken(s, w, i))
  {
    var x, s' := s.global[i][0], Taken(s, w, i);
    WithoutBytes(s.global, i, 0);
    WithBytes(s.workers[w], x);
    AllBytesUpdate(s.workers, w, With(s.workers[w], x));
    forall b ensures Conserved(s', b) {
      assert Conserved(s, b);
      WithoutHolds(s.global, i, 0, b);
      WithHolds(s.workers[w], x, b);
      AllHoldUpdate(s.workers, w, With(s.workers[w], x), b);
    }
    CarvedStays(s, s');
  }

  /** A new chunk; what is left of the old one is wasted. */
  function Extended(s: State): State
    requires s.poolBegin <= s.poolEnd
  {
    s.(wasted := s.wasted + (s.poolEnd - s.poolBegin), chunks := s.chunks + 1, poolBegin := 0, poolEnd := CHUNK,
       allocatedFromOs := s.allocatedFromOs + CHUNK)
  }

  lemma ExtendedKeepsInv(s: State)
    requires Inv(s)
    ensures Inv(Extended(s))
  {
    var s' := Extended(s);
    forall k | 0 <= k < |s'.carved| ensures Placed(s', s'.carved[k]) {
      assert Placed(s, s.carved[k]);
    }
    forall b ensures Conserved(s', b) {
      assert Conserved(s, b);
    }
  }

  function CarvedBlock(s: State, i: nat): Block
    requires s.chunks > 0
  {
    Block(s.chunks - 1, s.poolBegin, i)
  }

  /** A worker gets a block carved from the pool. */
  function CarvedFor(s: State, w: nat, i: nat): State
    requires s.chunks > 0 && i < NBUCKETS && w < |s.workers| && i < |s.workers[w]|
  {
    var b := CarvedBlock(s, i);
    s.(poolBegin := s.poolBegin + SizeOf(i), carved := s.carved + [b],
       workers := s.workers[w := With(s.workers[w], b)],
       allocatedFromGlobalPool := s.allocatedFromGlobalPool + SizeOf(i))
  }

  lemma CarvingIsDisjoint(s: State, w: nat, i: nat)
    requires CarvedOk(s) && s.chunks > 0 && i < NBUCKETS && w < |s.workers| && i < |s.workers[w]|
    requires s.poolBegin + SizeOf(i) <= CHUNK
    ensures CarvedOk(CarvedFor(s, w, i))
  {
    var s' := CarvedFor(s, w, i);
    forall k | 0 <= k < |s'.carved| ensures Placed(s', s'.carved[k]) {
      if k < |s.carved| { assert Placed(s, s.carved[k]); }
    }
    forall j, k | 0 <= j < k < |s'.carved| ensures Disjoint(s'.carved[j], s'.carved[k]) {
      assert Placed(s, s.carved[j]);
      if k < |s.carved| { assert Disjoint(s.carved[j], s.carved[k]); }
    }
  }

  lemma CarvedForKeepsInv(s: State, w: nat, i: nat)
    requires Inv(s) && s.chunks > 0 && i < NBUCKETS && w < |s.workers| && s.poolBegin + SizeOf(i) <= s.poolEnd
    ensures Inv(CarvedFor(s, w, i))
  {
    var x, s' := CarvedBlock(s, i), CarvedFor(s, w, i);
    WithBytes(s.workers[w], x);
    AllBytesUpdate(s.workers, w, With(s.workers[w], x));
    CarvingIsDisjoint(s, w, i);
    assert s'.carved[..|s'.carved| - 1] == s.carved;
    forall b ensures Conserved(s', b) {
      assert Conserved(s, b);
      WithHolds(s.workers[w], x, b);
      AllHoldUpdate(s.workers, w, With(s.workers[w], x), b);
    }
  }

  // ------------------------------------------------------- where blocks come from

  /** Nothing was carved and nothing came from the system. */
  predicate SameSupply(s: State, s': State) {
    && s'.carved == s.carved && s'.chunks == s.chunks && s'.poolBegin == s.poolBegin && s'.poolEnd == s.poolEnd
    && s'.allocatedFromOs == s.allocatedFromOs && s'.wasted == s.wasted
  }

  predicate HasBucket(s: State, w: nat, i: nat) {
    i < NBUCKETS == |s.global| && w < |s.workers| && |s.workers[w]| == NBUCKETS
  }

  /** List i of worker w is the given one, and all other lists of workers are as before. */
  predicate OnlyList(s: State, s': State, w: nat, i: nat, l: seq<Block>)
    requires HasBucket(s, w, i)
  {
    s'.workers == s.workers[w := s.workers[w][i := l]] && s'.inUse == s.inUse
  }

  lemma OnlyListAgain(s: State, s1: State, s2: State, w: nat, i: nat, l1: seq<Block>, l2: seq<Block>)
    requires HasBucket(s, w, i) && OnlyList(s, s1, w, i, l1) && HasBucket(s1, w, i) && OnlyList(s1, s2, w, i, l2)
    ensures OnlyList(s, s2, w, i, l2)
  {
    assert s.workers[w][i := l1][i := l2] == s.workers[w][i := l2];
  }

  lemma ReturnedIsOnly(s: State, w: nat, i: nat, k: nat)
    requires Inv(s) && w < |s.workers| && i < NBUCKETS && k < |s.workers[w][i]|
    ensures HasBucket(s, w, i) && HasBucket(Returned(s, w, i, k), w, i) && SameSupply(s, Returned(s, w, i, k))
    ensures OnlyList(s, Returned(s, w, i, k), w, i, s.workers[w][i][..k] + s.workers[w][i][k + 1..])
  {
  }

  lemma NothingDone(s: State, w: nat, i: nat)
    requires HasBucket(s, w, i)
    ensures OnlyList(s, s, w, i, s.workers[w][i])
  {
    assert s.workers[w][i := s.workers[w][i]] == s.workers[w];
  }

  /** A worker's list gets one block in front: the first one of the global list as long as
      that has any; else a new one, from a new chunk only if the pool is too small for it. */
  predicate Supplies(s: State, s': State, w: nat, i: nat)
    requires HasBucket(s, w, i)
  {
    if |s.global[i]| > 0 then
      && SameSupply(s, s') && s'.global == s.global[i := s.global[i][1..]]
      && OnlyList(s, s', w, i, [s.global[i][0]] + s.workers[w][i])
    else
      && s'.global == s.global && s.carved <= s'.carved && |s'.carved| == |s.carved| + 1
      && OnlyList(s, s', w, i, [s'.carved[|s.carved|]] + s.workers[w][i])
      && (if s.poolBegin + SizeOf(i) <= s.poolEnd
          then s'.chunks == s.chunks && s'.wasted == s.wasted && s'.poolBegin == s.poolBegin + SizeOf(i)
          else s'.chunks == s.chunks + 1 && s'.wasted == s.wasted + (s.poolEnd - s.poolBegin) && s'.poolBegin == SizeOf(i))
      && s'.allocatedFromOs == s.allocatedFromOs + CHUNK * (s'.chunks - s.chunks)
  }

  lemma TakenSupplies(s: State, w: nat, i: nat)
    requires Inv(s) && w < |s.workers| && i < NBUCKETS && |s.global[i]| > 0
    ensures Supplies(s, Taken(s, w, i), w, i)
  {
    assert s.global[i][..0] + s.global[i][1..] == s.global[i][1..];
  }

  lemma CarvedSupplies(s: State, w: nat, i: nat)
    requires Inv(s) && w < |s.workers| && i < NBUCKETS && s.global[i] == []
    ensures s.poolBegin + SizeOf(i) <= s.poolEnd ==> Supplies(s, CarvedFor(s, w, i), w, i)
    ensures s.poolBegin + SizeOf(i) > s.poolEnd ==> Supplies(s, CarvedFor(Extended(s), w, i), w, i)
  {
  }

  /** Block k of a batch: returned ones come first, new ones behind them. */
  function Supplied(s: State, s': State, i: nat, k: nat): Block
    requires i < |s.global| && (k < |s.global[i]| || k < |s.global[i]| + |s'.carved| - |s.carved|)
  {
    if k < |s.global[i]| then s.global[i][k] else s'.carved[|s.carved| + k - |s.global[i]|]
  }

  /** A worker's list has got n blocks, the last in front: as many returned ones as the
      global list had, and as many new ones as were missing. */
  predicate SuppliesBatch(s: State, s': State, w: nat, i: nat, n: nat)
    requires HasBucket(s, w, i)
  {
    var taken := Min(n, |s.global[i]|);
    && s'.global == s.global[i := s.global[i][taken..]]
    && s.carved <= s'.carved && |s'.carved| == |s.carved| + n - taken
    && (n <= |s.global[i]| ==> SameSupply(s, s'))
    && HasBucket(s', w, i) && OnlyList(s, s', w, i, s'.workers[w][i])
    && |s'.workers[w][i]| == n + |s.workers[w][i]| && s'.workers[w][i][n..] == s.workers[w][i]
    && forall k {:trigger Supplied(s, s', i, k)} | 0 <= k < n :: s'.workers[w][i][n - 1 - k] == Supplied(s, s', i, k)
  }

  lemma NothingSupplied(s: State, w: nat, i: nat)
    requires HasBucket(s, w, i)
    ensures SuppliesBatch(s, s, w, i, 0)
  {
    assert s.workers[w][i := s.workers[w][i]] == s.workers[w];
    assert s.global[i := s.global[i][0..]] == s.global;
  }

  lemma OneMoreSupplied(s: State, s1: State, s2: State, w: nat, i: nat, n: nat)
    requires HasBucket(s, w, i) && SuppliesBatch(s, s1, w, i, n) && Supplies(s1, s2, w, i)
    ensures SuppliesBatch(s, s2, w, i, n + 1)
  {
    var l1, l2 := s1.workers[w][i], s2.workers[w][i];
    assert l2[1..] == l1 && l2[n + 1..] == l1[n..];
    assert s.workers[w][i := l1][i := l2] == s.workers[w][i := l2];
    if |s.global[i]| > n {
      assert s1.global[i] == s.global[i][n..] && s1.global[i][1..] == s.global[i][n + 1..];
    }
    forall k | 0 <= k < n + 1 ensures l2[n - k] == Supplied(s, s2, i, k) {
      if k < n { assert l1[n - 1 - k] == Supplied(s, s1, i, k); }
    }
  }

  /** What an allocation takes from where: the first block of the worker's own list; if
      that is empty, the last one of a batch. */
  predicate GivesBlock(s: State, s': State, w: nat, i: nat, n: nat, b: Block)
    requires HasBucket(s, w, i)
  {
    && HasBucket(s', w, i) && |s.inUse| == NBUCKETS && b.bucket == i
    && var put := s'.(inUse := s.inUse, workers := s'.workers[w := s'.workers[w][i := [b] + s'.workers[w][i]]]);
       && s'.inUse == With(s.inUse, b)
       && if s.workers[w][i] == [] then SuppliesBatch(s, put, w, i, n) else put == s
  }

  /** Putting a block back in front undoes handing it out. */
  lemma PoppedIsInFront(s: State, w: nat, i: nat)
    requires Inv(s) && w < |s.workers| && i < NBUCKETS && |s.workers[w][i]| > 0
    ensures var b, s' := s.workers[w][i][0], Popped(s, w, i, 0);
            && HasBucket(s', w, i) && s'.inUse == With(s.inUse, b) && b.bucket == i
            && s'.(inUse := s.inUse, workers := s'.workers[w := s'.workers[w][i := [b] + s'.workers[w][i]]]) == s
  {
    var b, l := s.workers[w][i][0], s.workers[w][i];
    assert [b] + (l[..0] + l[1..]) == l;
    assert s.workers[w][i := l[..0] + l[1..]][i := l] == s.workers[w];
  }

  /** What an allocation hands out after it has looked at the worker's own list. */
  lemma GivesFromList(s: State, full: State, w: nat, i: nat, n: nat)
    requires Inv(s) && Inv(full) && w < |s.workers| && w < |full.workers| && i < NBUCKETS && |full.workers[w][i]| > 0
    requires if s.workers[w][i] == [] then SuppliesBatch(s, full, w, i, n) else full == s
    ensures GivesBlock(s, Popped(full, w, i, 0), w, i, n, full.workers[w][i][0])
  {
    PoppedIsInFront(full, w, i);
  }

  /** Memory is used again: blocks are carved only as far as the worker's list and the
      global list of the bucket are empty, and until then none comes from the system. */
  lemma BlocksAreUsedAgain(s: State, s': State, w: nat, i: nat, n: nat, b: Block)
    requires HasBucket(s, w, i) && n > 0 && GivesBlock(s, s', w, i, n, b)
    ensures |s'.carved| - |s.carved| == if s.workers[w][i] != [] then 0 else n - Min(n, |s.global[i]|)
    ensures s.workers[w][i] != [] ==> b == s.workers[w][i][0] && s'.global == s.global && SameSupply(s, s')
    ensures s.workers[w][i] == [] && |s.global[i]| >= n
        ==> b == s.global[i][n - 1] && s'.global == s.global[i := s.global[i][n..]] && SameSupply(s, s')
    ensures s.workers[w][i] == [] && |s.global[i]| < n ==> b == s'.carved[|s'.carved| - 1] && s'.global == s.global[i := []]
  {
    var put := s'.(inUse := s.inUse, workers := s'.workers[w := s'.workers[w][i := [b] + s'.workers[w][i]]]);
    assert put.workers[w][i] == [b] + s'.workers[w][i];
    if s.workers[w][i] == [] {
      assert put.workers[w][i][n - 1 - (n - 1)] == Supplied(s, put, i, n - 1);
      assert s.global[i][Min(n, |s.global[i]|)..] == if n <= |s.global[i]| then s.global[i][n..] else [];
    }
  }
}
