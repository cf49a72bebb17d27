/** Pools of idle fibers in a tree. A pool counts the fibers it took from the
    heap, less those it gave back; several workers use the pools at once, and every
    region under a pool's lock is one step. */
module FiberPool {
  import opened Basics

  type Fiber = nat

  /** The pool's array of idle fibers up to its size, and its counters. */
  datatype Pool = Pool(maxSize: nat, allocMax: int, fibers: seq<Fiber>, total: int, highWater: int)

  /** At most so many fibers are taken in one lock acquisition. */
  const BATCH: nat := 10

  // --------------------------------------------------------------- one locked region

  /** How many fibers a pool is above the number to keep. */
  function Above(p: Pool, keep: nat): nat { if |p.fibers| > keep then |p.fibers| - keep else 0 }

  function Popped(p: Pool, n: nat): Pool
    requires n <= |p.fibers|
  {
    p.(fibers := p.fibers[..|p.fibers| - n])
  }

  function Pushed(p: Pool, f: Fiber): Pool { p.(fibers := p.fibers + [f]) }

  /** The n idle fibers that were stored last, the last first. */
  function Top(p: Pool, n: nat): (t: seq<Fiber>)
    requires n <= |p.fibers|
    ensures |t| == n && forall k :: 0 <= k < n ==> t[k] == p.fibers[|p.fibers| - 1 - k]
  {
    seq(n, k requires 0 <= k < n => p.fibers[|p.fibers| - 1 - k])
  }

  function Incremented(p: Pool): Pool {
    p.(total := p.total + 1, highWater := if p.highWater < p.total + 1 then p.total + 1 else p.highWater)
  }

  /** How many fibers go from pool p up to its parent q. */
  function MoveCount(p: Pool, q: Pool, keep: nat): (n: nat)
    ensures n <= |p.fibers|
  {
    if |q.fibers| >= q.maxSize then 0 else Min(q.maxSize - |q.fibers|, Above(p, keep))
  }

  /** The child and the parent after a move. The parent takes over a negative
      total, unless it was full. */
  function Moved(p: Pool, q: Pool, keep: nat): (Pool, Pool) {
    var n := MoveCount(p, q, keep);
    if |q.fibers| >= q.maxSize then (p, q)
    else (Popped(p, n).(total := if p.total < 0 then 0 else p.total),
          q.(fibers := q.fibers + Top(p, n), total := q.total + Min(p.total, 0)))
  }

  /** What a move is for: the child keeps its lower fibers, and those on top go up, the
      last stored first, behind what the parent has; none are left above the number to
      keep while the parent has room. */
  predicate HandsUp(p: Pool, q: Pool, keep: nat, p': Pool, q': Pool) {
    && p'.fibers <= p.fibers && q.fibers <= q'.fibers
    && |p'.fibers| + |q'.fibers| == |p.fibers| + |q.fibers|
    && (forall k | |q.fibers| <= k < |q'.fibers| :: q'.fibers[k] == p.fibers[|p.fibers| - 1 - (k - |q.fibers|)])
    && (|q'.fibers| >= q.maxSize || |p'.fibers| <= keep)
    && (|p'.fibers| < |p.fibers| ==> |p'.fibers| >= keep && |q'.fibers| <= q.maxSize)
    && p'.total + q'.total == p.total + q.total && (|q.fibers| < q.maxSize ==> p'.total >= 0) && p'.total >= p.total
  }

  lemma MovedHandsUp(p: Pool, q: Pool, keep: nat)
    ensures HandsUp(p, q, keep, Moved(p, q, keep).0, Moved(p, q, keep).1)
  {
  }

  /** Every idle fiber goes up or back to the heap, the last stored first. */
  lemma UpOrFreed(p: Pool, q: Pool, keep: nat, p': Pool, q': Pool, rest: nat)
    requires HandsUp(p, q, keep, p', q') && rest <= |p'.fibers|
    ensures q'.fibers + Top(p', |p'.fibers| - rest) == q.fibers + Top(p, |p.fibers| - rest)
  {
  }

  function BatchCount(p: Pool, keep: nat): nat { Min(BATCH, Above(p, keep)) }

  /** One round of freeing: takes a batch, and stores the extra fiber once the
      pool has no more fibers than it should keep. */
  function FreedBatch(p: Pool, keep: nat, extra: Option<Fiber>): Pool {
    var q := WithoutBatch(p, keep);
    if |q.fibers| <= keep && extra.Some? then Pushed(q, extra.value) else q
  }

  /** All rounds of freeing together. */
  function FreedDown(p: Pool, keep: nat, extra: Option<Fiber>): Pool {
    var q := Popped(p, Above(p, keep)).(total := p.total - Above(p, keep));
    if extra.Some? then Pushed(q, extra.value) else q
  }

  /** What freeing is for: the fibers above the number to keep go back to the heap, the
      last stored first, each is counted off, and the extra one is stored on the rest. */
  predicate FreesDown(p: Pool, keep: nat, extra: Option<Fiber>, p': Pool, freed: seq<Fiber>) {
    && |freed| == (if |p.fibers| > keep then |p.fibers| - keep else 0)
    && (forall k | 0 <= k < |freed| :: freed[k] == p.fibers[|p.fibers| - 1 - k])
    && p'.fibers == p.fibers[..|p.fibers| - |freed|] + (if extra.Some? then [extra.value] else [])
    && p'.total == p.total - |freed|
  }

  lemma FreedDownFreesDown(p: Pool, keep: nat, extra: Option<Fiber>)
    ensures FreesDown(p, keep, extra, FreedDown(p, keep, extra), Top(p, Above(p, keep)))
  {
  }

  /** A full pool hands fibers to its parent before it takes one back. */
  function Relieved(p: Pool, q: Pool): (Pool, Pool) {
    if |p.fibers| < p.maxSize then (p, q) else Moved(p, q, p.maxSize / 2 + p.maxSize / 4)
  }

  /** A pool to which a fiber was returned: it frees as many as are in the way. */
  function Returned(p: Pool, f: Fiber): Pool
    requires p.maxSize > 0
  {
    FreedDown(p, p.maxSize - 1, Some(f))
  }

  /** The returned fiber is stored, and the pool is never too full. */
  lemma ReturnedIsStored(p: Pool, q: Pool, f: Fiber)
    requires PoolOk(p) && PoolOk(q) && p.maxSize > 0
    ensures var r := Returned(Relieved(p, q).0, f);
            PoolOk(r) && |r.fibers| > 0 && r.fibers[|r.fibers| - 1] == f && PoolOk(Relieved(p, q).1)
    ensures PoolOk(Returned(p, f)) && Returned(p, f).fibers != [] && Returned(p, f).fibers[|Returned(p, f).fibers| - 1] == f
  {
  }

  /** How a fiber comes back to pool p with parent q: it is stored on top, and if the pool
      was full, its fibers on top make room for it: they go up, at most one of them back
      to the heap, and that only if the parent is full. */
  predicate StoresInPlace(p: Pool, q: Pool, f: Fiber, p': Pool, q': Pool, freed: seq<Fiber>) {
    && |p'.fibers| > 0 && p'.fibers[|p'.fibers| - 1] == f && p'.fibers[..|p'.fibers| - 1] <= p.fibers
    && q'.fibers + freed == q.fibers + Top(p, |p.fibers| + 1 - |p'.fibers|)
    && (|p.fibers| < p.maxSize ==> p'.fibers == p.fibers + [f] && q' == q && freed == [])
    && |freed| <= 1 && (freed != [] ==> |q'.fibers| >= q.maxSize && |p'.fibers| == p.maxSize)
    && (|p.fibers| >= p.maxSize && |q'.fibers| < q.maxSize ==> |p'.fibers| <= p.maxSize / 2 + p.maxSize / 4 + 1)
  }

  lemma RelievedStores(p: Pool, q: Pool, f: Fiber)
    requires |p.fibers| == p.maxSize > 0
    ensures var r := Relieved(p, q);
            StoresInPlace(p, q, f, Returned(r.0, f), r.1, Top(r.0, Above(r.0, p.maxSize - 1)))
  {
    var r := Relieved(p, q);
    MovedHandsUp(p, q, p.maxSize / 2 + p.maxSize / 4);
    UpOrFreed(p, q, p.maxSize / 2 + p.maxSize / 4, r.0, r.1, |Returned(r.0, f).fibers| - 1);
  }

  lemma ReturnedToRoom(p: Pool, f: Fiber)
    requires |p.fibers| < p.maxSize
    ensures Returned(p, f) == Pushed(p, f)
  {
    assert Popped(p, 0) == p;
  }

  /** One locked region of freeing, before the extra fiber is stored. */
  function WithoutBatch(p: Pool, keep: nat): Pool {
    Popped(p, BatchCount(p, keep)).(total := p.total - BatchCount(p, keep))
  }

  /** A batch, and what the later rounds free. */
  lemma BatchThenRest(p: Pool, keep: nat, extra: Option<Fiber>)
    ensures var q := FreedBatch(p, keep, extra);
            Top(p, Above(p, keep)) == Top(p, BatchCount(p, keep)) + if Above(p, keep) <= BATCH then [] else Top(q, Above(q, keep))
  {
  }

  /** Batch after batch frees the pool down to the number to keep, and the extra
      fiber is stored once, in the last round. */
  lemma RoundsFreeDown(p: Pool, keep: nat, extra: Option<Fiber>)
    ensures var q := FreedBatch(p, keep, extra);
            if Above(p, keep) <= BATCH then q == FreedDown(p, keep, extra)
            else FreedDown(q, keep, extra) == FreedDown(p, keep, extra) && Above(q, keep) == Above(p, keep) - BATCH
  {
  }

  /** One pool, asked for a fiber: it gives an idle one, or one from the heap if its
      limit allows; give is what the heap answers. */
  function AskedHere(p: Pool, give: Option<Fiber>): (Pool, Option<Fiber>) {
    if |p.fibers| > 0 then (Popped(p, 1), Some(p.fibers[|p.fibers| - 1]))
    else if p.total >= p.allocMax then (p, None)
    else if give.Some? then (Incremented(p), give)
    else (Incremented(p).(total := p.total), None)
  }

  /** The pools from one pool up to the root, and the fiber that an allocation
      yields; gives[d] is what the heap answers if pool d asks it. */
  function Allocated(ps: seq<Pool>, gives: seq<Option<Fiber>>): (r: (seq<Pool>, Option<Fiber>))
    requires |gives| == |ps|
    ensures |r.0| == |ps|
  {
    if |ps| == 0 then ([], None)
    else
      var here := AskedHere(ps[0], gives[0]);
      if here.1.Some? then ([here.0] + ps[1..], here.1)
      else
        var rest := Allocated(ps[1..], gives[1..]);
        ([here.0] + rest.0, rest.1)
  }

  predicate CannotGive(p: Pool, give: Option<Fiber>) {
    |p.fibers| == 0 && (p.total >= p.allocMax || give.None?)
  }

  lemma FirstCannotGive(ps: seq<Pool>, gives: seq<Option<Fiber>>)
    requires |gives| == |ps| > 0
    ensures CannotGiveAny(ps, gives) <==> CannotGive(ps[0], gives[0]) && CannotGiveAny(ps[1..], gives[1..])
  {
    if CannotGive(ps[0], gives[0]) && CannotGiveAny(ps[1..], gives[1..]) {
      forall d: nat | d < |ps| ensures CannotGive(ps[d], gives[d]) {
        assert d > 0 ==> CannotGive(ps[1..][d - 1], gives[1..][d - 1]);
      }
    }
    if CannotGiveAny(ps, gives) {
      forall d: nat | d < |ps[1..]| ensures CannotGive(ps[1..][d], gives[1..][d]) {
        assert CannotGive(ps[d + 1], gives[d + 1]);
      }
    }
  }

  predicate CannotGiveAny(ps: seq<Pool>, gives: seq<Option<Fiber>>)
    requires |gives| == |ps|
  {
    forall d: nat {:trigger CannotGive(ps[d], gives[d])} | d < |ps| :: CannotGive(ps[d], gives[d])
  }

  /** An allocation fails if and only if every pool up to the root is empty, and at
      its limit or refused by the heap. */
  lemma {:induction false} AllocationFailsIff(ps: seq<Pool>, gives: seq<Option<Fiber>>)
    requires |gives| == |ps|
    ensures Allocated(ps, gives).1.None? <==> CannotGiveAny(ps, gives)
  {
    if |ps| > 0 {
      FirstCannotGive(ps, gives);
      AllocationFailsIff(ps[1..], gives[1..]);
    }
  }

  /** An allocation changes at most one pool, but for the high water marks: it
      takes one idle fiber, or counts one from the heap. */
  lemma {:induction false} AllocationCountsOnce(ps: seq<Pool>, gives: seq<Option<Fiber>>)
    requires |gives| == |ps|
    ensures var r := Allocated(ps, gives);
            && (r.1.None? ==> Totals(r.0) == Totals(ps) && Idle(r.0) == Idle(ps))
            && (r.1.Some? ==> Totals(r.0) - Idle(r.0) == Totals(ps) - Idle(ps) + 1)
  {
    if |ps| > 0 {
      var r := Allocated(ps, gives);
      FromFirst(ps);
      FromFirst(r.0);
      if CannotGive(ps[0], gives[0]) {
        AllocationCountsOnce(ps[1..], gives[1..]);
        assert r.0[1..] == Allocated(ps[1..], gives[1..]).0;
      } else {
        assert r.0[1..] == ps[1..];
      }
    }
  }

  function Totals(ps: seq<Pool>): int {
    if |ps| == 0 then 0 else Totals(ps[..|ps| - 1]) + ps[|ps| - 1].total
  }

  function Idle(ps: seq<Pool>): nat {
    if |ps| == 0 then 0 else Idle(ps[..|ps| - 1]) + |ps[|ps| - 1].fibers|
  }

  lemma {:induction false} FromFirst(ps: seq<Pool>)
    requires |ps| > 0
    ensures Totals(ps) == ps[0].total + Totals(ps[1..]) && Idle(ps) == |ps[0].fibers| + Idle(ps[1..])
  {
    var n := |ps| - 1;
    if n > 0 {
      FromFirst(ps[..n]);
      assert ps[..n][1..] == ps[1..][..n - 1];
    }
  }

  // -------------------------------------------------------------------- all the pools

  /** reserved counts allocations between the increment of the total and the call
      of the heap; out holds the fibers that are in no pool; dying those taken out
      to be freed; alive all that came from the heap and have not gone back. */
  datatype State = State(pools: seq<Pool>, parent: seq<Option<nat>>, reserved: seq<nat>,
                         out: set<Fiber>, dying: set<Fiber>, alive: set<Fiber>)

  datatype Step =
    | TakeIdle(i: nat)
    | Reserve(i: nat)
    | Create(i: nat, f: Fiber)
    | HeapFails(i: nat)
    | PutBack(i: nat, f: Fiber)
    | MoveUp(i: nat, keep: nat)
    | FreeBatch(i: nat, keep: nat, extra: Option<Fiber>)
    | Deallocate(f: Fiber)

  predicate ShapeOk(s: State) {
    && |s.parent| == |s.reserved| == |s.pools|
    && forall i | 0 <= i < |s.pools| && s.parent[i].Some? :: s.parent[i].value < |s.pools| && s.parent[i].value != i
  }

  predicate Enabled(s: State, st: Step)
    requires ShapeOk(s)
  {
    match st
    case TakeIdle(i) => i < |s.pools| && |s.pools[i].fibers| > 0
    case Reserve(i) => i < |s.pools| && |s.pools[i].fibers| == 0 && s.pools[i].total < s.pools[i].allocMax
    case Create(i, f) => i < |s.pools| && s.reserved[i] > 0 && f !in s.alive
    case HeapFails(i) => i < |s.pools| && s.reserved[i] > 0
    case PutBack(i, f) => i < |s.pools| && f in s.out && |s.pools[i].fibers| < s.pools[i].maxSize
    case MoveUp(i, keep) => i < |s.pools| && s.parent[i].Some?
    case FreeBatch(i, keep, extra) => i < |s.pools| && (extra.Some? ==> extra.value in s.out && keep < s.pools[i].maxSize)
    case Deallocate(f) => f in s.dying
  }

  function Elems(x: seq<Fiber>): set<Fiber> { set f | f in x }

  function Next(s: State, st: Step): State
    requires ShapeOk(s) && Enabled(s, st)
  {
    match st
    case TakeIdle(i) =>
      var p := s.pools[i];
      s.(pools := s.pools[i := Popped(p, 1)], out := s.out + {p.fibers[|p.fibers| - 1]})
    case Reserve(i) =>
      var n: nat := s.reserved[i] + 1;
      s.(pools := s.pools[i := Incremented(s.pools[i])], reserved := s.reserved[i := n])
    case Create(i, f) =>
      var n: nat := s.reserved[i] - 1;
      s.(reserved := s.reserved[i := n], out := s.out + {f}, alive := s.alive + {f})
    case HeapFails(i) =>
      var n: nat := s.reserved[i] - 1;
      s.(pools := s.pools[i := s.pools[i].(total := s.pools[i].total - 1)], reserved := s.reserved[i := n])
    case PutBack(i, f) =>
      s.(pools := s.pools[i := Pushed(s.pools[i], f)], out := s.out - {f})
    case MoveUp(i, keep) =>
      var j := s.parent[i].value;
      var m := Moved(s.pools[i], s.pools[j], keep);
      s.(pools := s.pools[i := m.0][j := m.1])
    case FreeBatch(i, keep, extra) =>
      var p := s.pools[i];
      var n := BatchCount(p, keep);
      s.(pools := s.pools[i := FreedBatch(p, keep, extra)],
         out := if extra.Some? && |p.fibers| - n <= keep then s.out - {extra.value} else s.out,
         dying := s.dying + Elems(Top(p, n)))
    case Deallocate(f) =>
      s.(dying := s.dying - {f}, alive := s.alive - {f})
  }

  // ------------------------------------------------------------------- the invariant

  predicate HasSlot(s: State, i: nat, a: nat) { i < |s.pools| && a < |s.pools[i].fibers| }

  function At(s: State, i: nat, a: nat): Fiber
    requires HasSlot(s, i, a)
  {
    s.pools[i].fibers[a]
  }

  predicate SlotsDiffer(s: State, i: nat, a: nat, j: nat, b: nat)
    requires HasSlot(s, i, a) && HasSlot(s, j, b)
  {
    (i, a) != (j, b) ==> At(s, i, a) != At(s, j, b)
  }

  ghost predicate IsIdle(s: State, f: Fiber) { exists i: nat, a: nat :: HasSlot(s, i, a) && At(s, i, a) == f }

  /** Every fiber that is alive is in one place: out, dying, or one slot. */
  ghost predicate PlacesOk(s: State) {
    && s.out !! s.dying
    && (forall i: nat, a: nat | HasSlot(s, i, a) :: At(s, i, a) !in s.out && At(s, i, a) !in s.dying)
    && (forall i: nat, a: nat, j: nat, b: nat {:trigger SlotsDiffer(s, i, a, j, b)} | HasSlot(s, i, a) && HasSlot(s, j, b) :: SlotsDiffer(s, i, a, j, b))
    && (forall f {:trigger IsIdle(s, f)} :: f in s.alive <==> f in s.out || f in s.dying || IsIdle(s, f))
  }

  predicate PoolOk(p: Pool) {
    |p.fibers| <= p.maxSize && p.total <= p.allocMax && 0 <= p.allocMax && p.total <= p.highWater && 0 <= p.highWater
  }

  function Sum(ns: seq<nat>): nat {
    if |ns| == 0 then 0 else Sum(ns[..|ns| - 1]) + ns[|ns| - 1]
  }

  predicate PoolsOk(s: State) { forall i | 0 <= i < |s.pools| :: PoolOk(s.pools[i]) }

  /** The totals count the fibers that are alive and not about to be freed, and
      the allocations under way. */
  predicate TotalsOk(s: State) {
    Totals(s.pools) == |s.alive| - |s.dying| + Sum(s.reserved)
  }

  ghost predicate Inv(s: State) {
    ShapeOk(s) && PoolsOk(s) && PlacesOk(s) && TotalsOk(s)
  }

  // ------------------------------------------------------------------------ the sums

  lemma {:induction false} TotalsUpdate(ps: seq<Pool>, i: nat, p: Pool)
    requires i < |ps|
    ensures Totals(ps[i := p]) == Totals(ps) - ps[i].total + p.total
  {
    var n := |ps| - 1;
    if i == n {
      assert ps[i := p][..n] == ps[..n];
    } else {
      assert ps[i := p][..n] == ps[..n][i := p];
      TotalsUpdate(ps[..n], i, p);
    }
  }

  lemma {:induction false} SumUpdate(ns: seq<nat>, i: nat, v: nat)
    requires i < |ns|
    ensures Sum(ns[i := v]) == Sum(ns) - ns[i] + v
  {
    var n := |ns| - 1;
    if i == n {
      assert ns[i := v][..n] == ns[..n];
    } else {
      assert ns[i := v][..n] == ns[..n][i := v];
      SumUpdate(ns[..n], i, v);
    }
  }

  lemma {:induction false} ElemsCount(x: seq<Fiber>)
    requires forall a, b | 0 <= a < b < |x| :: x[a] != x[b]
    ensures |Elems(x)| == |x|
  {
    if |x| > 0 {
      var y := x[..|x| - 1];
      ElemsCount(y);
      assert x == y + [x[|x| - 1]] && x[|x| - 1] !in y;
      assert Elems(x) == Elems(y) + {x[|x| - 1]};
    }
  }

  // ---------------------------------------------------------- steps keep the invariant

  lemma MoveKeepsTotals(s: State, i: nat, keep: nat)
    requires Inv(s) && Enabled(s, MoveUp(i, keep))
    ensures Totals(Next(s, MoveUp(i, keep)).pools) == Totals(s.pools)
  {
    var j := s.parent[i].value;
    var m := Moved(s.pools[i], s.pools[j], keep);
    TotalsUpdate(s.pools, i, m.0);
    TotalsUpdate(s.pools[i := m.0], j, m.1);
  }

  lemma CountersStep(s: State, st: Step)
    requires Inv(s) && Enabled(s, st)
    requires st.Reserve? || st.Create? || st.HeapFails?
    ensures TotalsOk(Next(s, st))
  {
    var s' := Next(s, st);
    SumUpdate(s.reserved, st.i, s'.reserved[st.i]);
    if !st.Create? {
      TotalsUpdate(s.pools, st.i, s'.pools[st.i]);
    }
  }

  lemma TotalsStep(s: State, st: Step)
    requires Inv(s) && Enabled(s, st)
    ensures TotalsOk(Next(s, st))
  {
    match st
    case TakeIdle(i) => TotalsUpdate(s.pools, i, Popped(s.pools[i], 1));
    case PutBack(i, f) => TotalsUpdate(s.pools, i, Pushed(s.pools[i], f));
    case MoveUp(i, keep) => MoveKeepsTotals(s, i, keep);
    case FreeBatch(i, keep, extra) =>
      TotalsUpdate(s.pools, i, FreedBatch(s.pools[i], keep, extra));
      BatchIsNew(s, i, BatchCount(s.pools[i], keep));
    case Deallocate(f) =>
      assert IsIdle(s, f) ==> f in s.alive;
    case _ => CountersStep(s, st);
  }

  lemma BatchIsNew(s: State, i: nat, n: nat)
    requires Inv(s) && i < |s.pools| && n <= |s.pools[i].fibers|
    ensures |s.dying + Elems(Top(s.pools[i], n))| == |s.dying| + n
  {
    var p := s.pools[i];
    var t := Top(p, n);
    forall a, b | 0 <= a < b < |t| ensures t[a] != t[b] {
      var c: nat, d: nat := |p.fibers| - 1 - a, |p.fibers| - 1 - b;
      assert HasSlot(s, i, c) && HasSlot(s, i, d) && SlotsDiffer(s, i, c, i, d);
    }
    ElemsCount(t);
    forall f | f in Elems(t) ensures f !in s.dying {
      var a :| 0 <= a < |t| && t[a] == f;
      assert HasSlot(s, i, |p.fibers| - 1 - a) && At(s, i, |p.fibers| - 1 - a) == f;
    }
  }

  lemma MovedIsOk(p: Pool, q: Pool, keep: nat)
    requires PoolOk(p) && PoolOk(q)
    ensures PoolOk(Moved(p, q, keep).0) && PoolOk(Moved(p, q, keep).1)
  {
  }

  lemma FreedIsOk(p: Pool, keep: nat, extra: Option<Fiber>)
    requires PoolOk(p) && (extra.Some? ==> keep < p.maxSize)
    ensures PoolOk(FreedBatch(p, keep, extra))
  {
  }

  lemma PoolsStep(s: State, st: Step)
    requires Inv(s) && Enabled(s, st)
    ensures ShapeOk(Next(s, st)) && PoolsOk(Next(s, st))
  {
    match st
    case MoveUp(i, keep) => MovedIsOk(s.pools[i], s.pools[s.parent[i].value], keep);
    case FreeBatch(i, keep, extra) => FreedIsOk(s.pools[i], keep, extra);
    case _ =>
  }

  /** Where the fiber in a slot was before the step, unless it was out. */
  function Was(s: State, st: Step, i: nat, a: nat): (nat, int)
    requires ShapeOk(s) && Enabled(s, st) && i < |s.pools|
  {
    if st.MoveUp? && s.parent[st.i].value == i && a >= |s.pools[i].fibers|
    then (st.i, |s.pools[st.i].fibers| - 1 - (a - |s.pools[i].fibers|)) else (i, a)
  }

  /** The fiber that the step stores. */
  function Stored(s: State, st: Step): Option<Fiber>
    requires ShapeOk(s) && Enabled(s, st)
  {
    match st
    case PutBack(i, f) => Some(f)
    case FreeBatch(i, keep, extra) =>
      if |s.pools[i].fibers| - BatchCount(s.pools[i], keep) <= keep then extra else None
    case _ => None
  }

  predicate IsStored(s: State, st: Step, i: nat, a: nat)
    requires ShapeOk(s) && Enabled(s, st)
  {
    Stored(s, st).Some? && i == st.i && i < |s.pools| && a == |Next(s, st).pools[i].fibers| - 1
  }

  lemma MovedSlotWas(s: State, c: nat, keep: nat, i: nat, a: nat)
    requires ShapeOk(s) && Enabled(s, MoveUp(c, keep)) && HasSlot(Next(s, MoveUp(c, keep)), i, a)
    ensures var w := Was(s, MoveUp(c, keep), i, a);
            w.1 >= 0 && HasSlot(s, w.0, w.1) && At(Next(s, MoveUp(c, keep)), i, a) == At(s, w.0, w.1)
  {
    var p, q := s.pools[c], s.pools[s.parent[c].value];
    var n := MoveCount(p, q, keep);
    assert i == c ==> a < |p.fibers| - n;
  }

  lemma SlotWas(s: State, st: Step, i: nat, a: nat)
    requires Inv(s) && Enabled(s, st) && HasSlot(Next(s, st), i, a)
    ensures IsStored(s, st, i, a) ==> At(Next(s, st), i, a) == Stored(s, st).value && Stored(s, st).value in s.out
    ensures var w := Was(s, st, i, a);
            !IsStored(s, st, i, a) ==> w.1 >= 0 && HasSlot(s, w.0, w.1) && At(Next(s, st), i, a) == At(s, w.0, w.1)
  {
    if st.MoveUp? {
      MovedSlotWas(s, st.i, st.keep, i, a);
    }
  }

  /** The fibers that a step takes out of the pools had a slot that is now gone. */
  predicate SlotIsGone(s: State, st: Step, i: nat, a: nat)
    requires ShapeOk(s) && Enabled(s, st) && HasSlot(s, i, a)
  {
    match st
    case TakeIdle(j) => i == j && a == |s.pools[i].fibers| - 1
    case FreeBatch(j, keep, extra) => i == j && a >= |s.pools[i].fibers| - BatchCount(s.pools[i], keep)
    case _ => false
  }

  lemma OldSlotsAreDistinct(s: State, i: nat, a: nat, j: nat, b: nat)
    requires Inv(s) && HasSlot(s, i, a) && HasSlot(s, j, b) && (i, a) != (j, b)
    ensures At(s, i, a) != At(s, j, b)
  {
    assert SlotsDiffer(s, i, a, j, b);
  }

  lemma WasIsOneToOne(s: State, st: Step, i: nat, a: nat, j: nat, b: nat)
    requires Inv(s) && Enabled(s, st) && HasSlot(Next(s, st), i, a) && HasSlot(Next(s, st), j, b) && (i, a) != (j, b)
    requires !IsStored(s, st, i, a) && !IsStored(s, st, j, b)
    ensures Was(s, st, i, a) != Was(s, st, j, b)
  {
    SlotWas(s, st, i, a);
    SlotWas(s, st, j, b);
  }

  lemma SlotsStayDifferent(s: State, st: Step, i: nat, a: nat, j: nat, b: nat)
    requires Inv(s) && Enabled(s, st) && HasSlot(Next(s, st), i, a) && HasSlot(Next(s, st), j, b)
    ensures SlotsDiffer(Next(s, st), i, a, j, b)
  {
    if (i, a) != (j, b) {
      SlotWas(s, st, i, a);
      SlotWas(s, st, j, b);
      if !IsStored(s, st, i, a) && !IsStored(s, st, j, b) {
        WasIsOneToOne(s, st, i, a, j, b);
        var w, x := Was(s, st, i, a), Was(s, st, j, b);
        OldSlotsAreDistinct(s, w.0, w.1, x.0, x.1);
      }
    }
  }

  /** A fiber in a pool is not out and not dying after a step. */
  lemma SlotStaysApart(s: State, st: Step, i: nat, a: nat)
    requires Inv(s) && Enabled(s, st) && HasSlot(Next(s, st), i, a)
    ensures At(Next(s, st), i, a) !in Next(s, st).out && At(Next(s, st), i, a) !in Next(s, st).dying
  {
    var s' := Next(s, st);
    var f := At(s', i, a);
    SlotWas(s, st, i, a);
    var w := Was(s, st, i, a);
    match st
    case TakeIdle(j) =>
      OldSlotsAreDistinct(s, i, a, j, |s.pools[j].fibers| - 1);
    case FreeBatch(j, keep, extra) =>
      forall k | 0 <= k < BatchCount(s.pools[j], keep) ensures f != Top(s.pools[j], BatchCount(s.pools[j], keep))[k] {
        var c: nat := |s.pools[j].fibers| - 1 - k;
        assert HasSlot(s, j, c) && At(s, j, c) == Top(s.pools[j], BatchCount(s.pools[j], keep))[k];
        if !IsStored(s, st, i, a) {
          OldSlotsAreDistinct(s, i, a, j, c);
        }
      }
    case Create(j, g) =>
      assert IsIdle(s, f);
    case _ =>
  }

  /** Which fibers are in the pools after a step. */
  lemma IdleAfter(s: State, st: Step, f: Fiber)
    requires Inv(s) && Enabled(s, st)
    ensures IsIdle(Next(s, st), f) ==> IsIdle(s, f) || Stored(s, st) == Some(f)
    ensures Stored(s, st) == Some(f) ==> IsIdle(Next(s, st), f)
  {
    var s' := Next(s, st);
    if IsIdle(s', f) {
      var i: nat, a: nat :| HasSlot(s', i, a) && At(s', i, a) == f;
      SlotWas(s, st, i, a);
      var w := Was(s, st, i, a);
      assert !IsStored(s, st, i, a) ==> HasSlot(s, w.0, w.1);
    }
    if Stored(s, st) == Some(f) {
      var n: nat := |s'.pools[st.i].fibers| - 1;
      assert HasSlot(s', st.i, n) && At(s', st.i, n) == f;
    }
  }

  /** An idle fiber stays in the pools, or a step takes it out. */
  lemma IdleBefore(s: State, st: Step, i: nat, a: nat)
    requires Inv(s) && Enabled(s, st) && HasSlot(s, i, a)
    ensures SlotIsGone(s, st, i, a) ==> At(s, i, a) in Next(s, st).out || At(s, i, a) in Next(s, st).dying
    ensures !SlotIsGone(s, st, i, a) ==> IsIdle(Next(s, st), At(s, i, a))
  {
    var s' := Next(s, st);
    if SlotIsGone(s, st, i, a) {
      if st.FreeBatch? {
        var n := BatchCount(s.pools[i], st.keep);
        assert Top(s.pools[i], n)[|s.pools[i].fibers| - 1 - a] == At(s, i, a);
      }
    } else if st.MoveUp? && i == st.i && a >= |s'.pools[i].fibers| {
      var j := s.parent[i].value;
      var b := |s.pools[j].fibers| + (|s.pools[i].fibers| - 1 - a);
      assert HasSlot(s', j, b) && At(s', j, b) == At(s, i, a);
    } else {
      assert HasSlot(s', i, a) && At(s', i, a) == At(s, i, a);
    }
  }

  /** The fibers that a step adds to those out or dying come from the pools or the heap. */
  lemma TakenWereAlive(s: State, st: Step, f: Fiber)
    requires Inv(s) && Enabled(s, st) && (f in Next(s, st).out || f in Next(s, st).dying)
    ensures f in s.alive || (st.Create? && st.f == f)
  {
    assert IsIdle(s, f) ==> f in s.alive;
    match st
    case TakeIdle(i) =>
      assert HasSlot(s, i, |s.pools[i].fibers| - 1);
      assert IsIdle(s, At(s, i, |s.pools[i].fibers| - 1));
    case FreeBatch(i, keep, extra) =>
      var n := BatchCount(s.pools[i], keep);
      if f in Elems(Top(s.pools[i], n)) {
        var k :| 0 <= k < n && Top(s.pools[i], n)[k] == f;
        assert HasSlot(s, i, |s.pools[i].fibers| - 1 - k) && At(s, i, |s.pools[i].fibers| - 1 - k) == f;
        assert IsIdle(s, f);
      }
    case _ =>
  }

  lemma AliveAfter(s: State, st: Step, f: Fiber)
    requires Inv(s) && Enabled(s, st)
    ensures f in Next(s, st).alive <==> f in Next(s, st).out || f in Next(s, st).dying || IsIdle(Next(s, st), f)
  {
    var s' := Next(s, st);
    IdleAfter(s, st, f);
    if f in s'.out || f in s'.dying {
      TakenWereAlive(s, st, f);
    }
    if IsIdle(s, f) {
      var i: nat, a: nat :| HasSlot(s, i, a) && At(s, i, a) == f;
      IdleBefore(s, st, i, a);
      assert f !in s.dying;
    }
    if st == Deallocate(f) {
      assert !IsIdle(s, f);
    }
  }

  lemma OutIsNotDying(s: State, st: Step)
    requires Inv(s) && Enabled(s, st)
    ensures Next(s, st).out !! Next(s, st).dying
  {
    match st
    case TakeIdle(i) => assert HasSlot(s, i, |s.pools[i].fibers| - 1) && At(s, i, |s.pools[i].fibers| - 1) !in s.dying;
    case FreeBatch(i, keep, extra) =>
      var t := Top(s.pools[i], BatchCount(s.pools[i], keep));
      forall f | f in Elems(t) ensures f !in s.out {
        var k :| 0 <= k < |t| && t[k] == f;
        assert HasSlot(s, i, |s.pools[i].fibers| - 1 - k) && At(s, i, |s.pools[i].fibers| - 1 - k) == f;
      }
    case Create(i, f) => assert IsIdle(s, f) ==> f in s.alive;
    case _ =>
  }

  lemma StepKeepsInv(s: State, st: Step)
    requires Inv(s) && Enabled(s, st)
    ensures Inv(Next(s, st))
  {
    var s' := Next(s, st);
    PoolsStep(s, st);
    TotalsStep(s, st);
    OutIsNotDying(s, st);
    forall i: nat, a: nat | HasSlot(s', i, a) ensures At(s', i, a) !in s'.out && At(s', i, a) !in s'.dying {
      SlotStaysApart(s, st, i, a);
    }
    forall i: nat, a: nat, j: nat, b: nat | HasSlot(s', i, a) && HasSlot(s', j, b) ensures SlotsDiffer(s', i, a, j, b) {
      SlotsStayDifferent(s, st, i, a, j, b);
    }
    forall f ensures f in s'.alive <==> f in s'.out || f in s'.dying || IsIdle(s', f) {
      AliveAfter(s, st, f);
    }
  }

  // ------------------------------------------------------------------------ all runs

  predicate IsStart(s: State) {
    && ShapeOk(s) && s.out == s.dying == s.alive == {}
    && (forall i | 0 <= i < |s.pools| :: s.reserved[i] == 0 && s.pools[i].fibers == [])
    && (forall i | 0 <= i < |s.pools| :: s.pools[i].total == s.pools[i].highWater == 0 <= s.pools[i].allocMax)
  }

  ghost predicate IsRun(run: seq<State>, steps: seq<Step>) {
    && |run| == |steps| + 1 && IsStart(run[0])
    && forall n {:trigger steps[n]} | 0 <= n < |steps| :: ShapeOk(run[n]) && Enabled(run[n], steps[n]) && run[n + 1] == Next(run[n], steps[n])
  }

  lemma {:induction false} NothingCounted(ps: seq<Pool>, ns: seq<nat>)
    requires forall i | 0 <= i < |ps| :: ps[i].total == 0
    requires forall i | 0 <= i < |ns| :: ns[i] == 0
    ensures Totals(ps) == 0 && Sum(ns) == 0
    decreases |ps| + |ns|
  {
    if |ps| > 0 { NothingCounted(ps[..|ps| - 1], []); }
    if |ns| > 0 { NothingCounted([], ns[..|ns| - 1]); }
  }

  lemma {:induction false} RunHasInv(run: seq<State>, steps: seq<Step>, n: nat)
    requires IsRun(run, steps) && n < |run|
    ensures Inv(run[n])
  {
    if n == 0 {
      NothingCounted(run[0].pools, run[0].reserved);
    } else {
      RunHasInv(run, steps, n - 1);
      StepKeepsInv(run[n - 1], steps[n - 1]);
    }
  }

  /** The fibers that a pool tree may have from the heap. */
  function Limits(ps: seq<Pool>): int {
    if |ps| == 0 then 0 else Limits(ps[..|ps| - 1]) + ps[|ps| - 1].allocMax
  }

  lemma {:induction false} TotalsWithinLimits(ps: seq<Pool>)
    requires forall i | 0 <= i < |ps| :: ps[i].total <= ps[i].allocMax
    ensures Totals(ps) <= Limits(ps)
  {
    if |ps| > 0 { TotalsWithinLimits(ps[..|ps| - 1]); }
  }

  /** In every run the totals add up to the fibers that are alive, and these stay
      within the limits, but for those already taken out to be freed. */
  lemma FibersAreCounted(run: seq<State>, steps: seq<Step>, n: nat)
    requires IsRun(run, steps) && n < |run|
    ensures Totals(run[n].pools) == |run[n].alive| - |run[n].dying| + Sum(run[n].reserved)
    ensures |run[n].alive| <= Limits(run[n].pools) + |run[n].dying|
    ensures forall i | 0 <= i < |run[n].pools| :: run[n].pools[i].total <= run[n].pools[i].allocMax
  {
    RunHasInv(run, steps, n);
    TotalsWithinLimits(run[n].pools);
  }

  ghost predicate IsOnlyAt(s: State, f: Fiber, i: nat, a: nat)
    requires HasSlot(s, i, a)
  {
    forall j: nat, b: nat {:trigger HasSlot(s, j, b)} | HasSlot(s, j, b) && At(s, j, b) == f :: (j, b) == (i, a)
  }

  /** In every run a fiber is alive if and only if it is out, dying or in a slot,
      and it is in one of these places only. */
  lemma EveryFiberIsInOnePlace(run: seq<State>, steps: seq<Step>, n: nat, f: Fiber)
    requires IsRun(run, steps) && n < |run|
    ensures var s := run[n];
            && (f in s.alive <==> f in s.out || f in s.dying || IsIdle(s, f))
            && !(f in s.out && f in s.dying) && !(f in s.out && IsIdle(s, f)) && !(f in s.dying && IsIdle(s, f))
    ensures forall i: nat, a: nat | HasSlot(run[n], i, a) && At(run[n], i, a) == f :: IsOnlyAt(run[n], f, i, a)
  {
    RunHasInv(run, steps, n);
    var s := run[n];
    assert IsIdle(s, f) ==> f in s.alive;
    forall i: nat, a: nat | HasSlot(s, i, a) && At(s, i, a) == f ensures IsOnlyAt(s, f, i, a) {
      forall j: nat, b: nat | HasSlot(s, j, b) && At(s, j, b) == f ensures (j, b) == (i, a) {
        assert SlotsDiffer(s, i, a, j, b);
      }
    }
  }

  lemma {:induction false} TotalsWithoutFirst(ps: seq<Pool>)
    requires |ps| > 0 && forall i | 0 < i < |ps| :: ps[i].total <= 0
    ensures Totals(ps) <= ps[0].total
  {
    if |ps| > 1 { TotalsWithoutFirst(ps[..|ps| - 1]); }
  }

  /** As the runtime sets up its pools, with all of the limit at the root, the total
      of the root alone bounds the fibers, even when worker pools are destroyed
      with a negative total that nobody takes over. */
  lemma RootBoundsTheFibers(run: seq<State>, steps: seq<Step>, n: nat)
    requires IsRun(run, steps) && n < |run| && |run[n].pools| > 0
    requires forall i | 0 < i < |run[n].pools| :: run[n].pools[i].allocMax == 0
    ensures |run[n].alive| - |run[n].dying| + Sum(run[n].reserved) <= run[n].pools[0].total <= run[n].pools[0].allocMax
  {
    RunHasInv(run, steps, n);
    TotalsWithoutFirst(run[n].pools);
  }

  /** Once the pools are empty and no fiber is in use, none is left. */
  lemma NoFiberLeaks(run: seq<State>, steps: seq<Step>, n: nat)
    requires IsRun(run, steps) && n < |run|
    requires run[n].out == {} && run[n].dying == {} && forall i | 0 <= i < |run[n].pools| :: run[n].pools[i].fibers == []
    ensures run[n].alive == {} && Totals(run[n].pools) == Sum(run[n].reserved)
  {
    RunHasInv(run, steps, n);
    forall f ensures f !in run[n].alive {
      assert !IsIdle(run[n], f);
    }
  }

  /** Asking one pool for a fiber is one or two steps of this machine. */
  lemma AskingIsSteps(s: State, i: nat, give: Option<Fiber>)
    requires Inv(s) && i < |s.pools| && (give.Some? ==> give.value !in s.alive)
    ensures var p, after := s.pools[i], s.pools[i := AskedHere(s.pools[i], give).0];
            if |p.fibers| > 0 then Enabled(s, TakeIdle(i)) && Next(s, TakeIdle(i)).pools == after
            else if p.total >= p.allocMax then !Enabled(s, Reserve(i)) && after == s.pools
            else
              var st := if give.Some? then Create(i, give.value) else HeapFails(i);
              Enabled(s, Reserve(i)) && Enabled(Next(s, Reserve(i)), st) && Next(Next(s, Reserve(i)), st).pools == after
  {
    if |s.pools[i].fibers| == 0 && s.pools[i].total < s.pools[i].allocMax {
      StepKeepsInv(s, Reserve(i));
    }
  }
}
