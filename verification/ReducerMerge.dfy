/** Merging reducer maps. A strand has a view of a reducer if it has used it; the
    leftmost view is the reducer's own value, and its address is the key. Maps
    belong to consecutive strands, and neighbours are merged in any order. */
module ReducerMerge {

  type Key = nat

  /** Views are addresses, like keys: the leftmost view of key k is view k. */
  type View = nat

  datatype RMap = RMap(views: map<Key, View>, leftmost: bool)

  datatype Kind = IntoLeft | IntoRight

  ghost predicate IsAssociative<V(!new)>(op: (V, V) -> V) {
    forall a, b, c {:trigger op(op(a, b), c)} :: op(op(a, b), c) == op(a, op(b, c))
  }

  ghost predicate IsIdentity<V(!new)>(op: (V, V) -> V, id: V) {
    forall a :: op(id, a) == a && op(a, id) == a
  }

  ghost predicate IsMonoid<V(!new)>(op: (V, V) -> V, id: V) {
    IsAssociative(op) && IsIdentity(op, id)
  }

  // ---------------------------------------------------------------- merging two maps

  /** The view of key k that survives: the left one, the leftmost one if the left
      map is the leftmost map and has not used k yet, else the right one. */
  function Surviving(l: RMap, r: RMap, k: Key): View
    requires k in l.views || k in r.views
  {
    if k in l.views then l.views[k] else if l.leftmost then k else r.views[k]
  }

  function MergedViews(l: RMap, r: RMap): map<Key, View> {
    map k | k in l.views.Keys + r.views.Keys :: Surviving(l, r, k)
  }

  function Merged(l: RMap, r: RMap): RMap { RMap(MergedViews(l, r), l.leftmost) }

  /** The right view of k is reduced into another one. */
  predicate Reduces(l: RMap, r: RMap, k: Key) {
    k in r.views && Surviving(l, r, k) != r.views[k]
  }

  /** The values after the merge: reduced views have taken in the right ones. */
  ghost predicate MergedStore<V(!new)>(op: (V, V) -> V, l: RMap, r: RMap, store: map<View, V>, store': map<View, V>) {
    && store'.Keys == store.Keys
    && (forall k | Reduces(l, r, k) :: Surviving(l, r, k) in store && r.views[k] in store
          && store'[Surviving(l, r, k)] == op(store[Surviving(l, r, k)], store[r.views[k]]))
    && (forall v | v in store && (forall k | Reduces(l, r, k) :: Surviving(l, r, k) != v) :: store'[v] == store[v])
  }

  /** The views that the merge destroys. */
  function Destroyed(l: RMap, r: RMap): set<View> {
    set k | k in r.views.Keys && Surviving(l, r, k) != r.views[k] :: r.views[k]
  }

  // --------------------------------------------------------- the maps of all strands

  /** All maps, left to right, and the values of all views. keys are the
      reducers; e holds those whose leftmost view was first registered by a
      strand other than the leftmost. */
  datatype World<V> = World(maps: seq<RMap>, store: map<View, V>, keys: set<Key>, e: set<Key>)

  predicate HasView<V>(s: World<V>, i: nat, k: Key) {
    i < |s.maps| && k in s.maps[i].views
  }

  function ViewAt<V>(s: World<V>, i: nat, k: Key): View
    requires HasView(s, i, k)
  {
    s.maps[i].views[k]
  }

  ghost predicate IsFirst<V>(s: World<V>, i: nat, k: Key) {
    HasView(s, i, k) && forall j: nat | j < i :: !HasView(s, j, k)
  }

  /** A view that is the leftmost view of reducer j belongs to j, and to the
      leftmost map unless it was registered elsewhere. */
  predicate ViewOk<V>(s: World<V>, i: nat, k: Key)
    requires HasView(s, i, k)
  {
    var v := ViewAt(s, i, k);
    && k in s.keys && v in s.store
    && (v in s.keys ==> v == k && ((i == 0 && s.maps[0].leftmost) || k in s.e))
  }

  ghost predicate FirstOk<V>(s: World<V>, i: nat, k: Key) {
    IsFirst(s, i, k) && k in s.e ==> ViewAt(s, i, k) == k
  }

  predicate ViewsDiffer<V>(s: World<V>, i: nat, j: Key, m: nat, k: Key)
    requires HasView(s, i, j) && HasView(s, m, k)
  {
    (i, j) != (m, k) ==> ViewAt(s, i, j) != ViewAt(s, m, k)
  }

  ghost predicate WorldOk<V>(s: World<V>) {
    && s.keys <= s.store.Keys
    && (forall i | 0 < i < |s.maps| :: !s.maps[i].leftmost)
    && (forall i: nat, k {:trigger ViewOk(s, i, k)} | HasView(s, i, k) :: ViewOk(s, i, k))
    && (forall i: nat, k {:trigger FirstOk(s, i, k)} :: FirstOk(s, i, k))
    && (forall i: nat, j, m: nat, k {:trigger ViewsDiffer(s, i, j, m, k)} | HasView(s, i, j) && HasView(s, m, k) :: ViewsDiffer(s, i, j, m, k))
  }

  /** What strand i has contributed to reducer k. */
  function ValueAt<V>(s: World<V>, id: V, i: nat, k: Key): V
    requires i < |s.maps|
  {
    if k in s.maps[i].views && s.maps[i].views[k] in s.store then s.store[s.maps[i].views[k]]
    else if s.maps[i].leftmost && k !in s.e && k in s.store then s.store[k] else id
  }

  function Values<V>(s: World<V>, id: V, k: Key): (vs: seq<V>)
    ensures |vs| == |s.maps| && forall i {:trigger vs[i]} | 0 <= i < |vs| :: vs[i] == ValueAt(s, id, i, k)
  {
    seq(|s.maps|, i requires 0 <= i < |s.maps| => ValueAt(s, id, i, k))
  }

  /** The serial fold from left to right. */
  function Fold<V>(op: (V, V) -> V, id: V, vs: seq<V>): V {
    if |vs| == 0 then id else op(Fold(op, id, vs[..|vs| - 1]), vs[|vs| - 1])
  }

  lemma {:induction false} FoldConcat<V(!new)>(op: (V, V) -> V, id: V, a: seq<V>, b: seq<V>)
    requires IsMonoid(op, id)
    ensures Fold(op, id, a + b) == op(Fold(op, id, a), Fold(op, id, b))
  {
    if |b| == 0 {
      assert a + b == a;
    } else {
      var n := |b| - 1;
      assert (a + b)[..|a + b| - 1] == a + b[..n];
      FoldConcat(op, id, a, b[..n]);
      assert op(op(Fold(op, id, a), Fold(op, id, b[..n])), b[n]) == op(Fold(op, id, a), op(Fold(op, id, b[..n]), b[n]));
    }
  }

  lemma FoldOfTwo<V(!new)>(op: (V, V) -> V, id: V, a: seq<V>, x: V, y: V, b: seq<V>)
    requires IsMonoid(op, id)
    ensures Fold(op, id, a + [x, y] + b) == Fold(op, id, a + [op(x, y)] + b)
  {
    FoldConcat(op, id, a + [x, y], b);
    FoldConcat(op, id, a + [op(x, y)], b);
    FoldConcat(op, id, a, [x, y]);
    FoldConcat(op, id, a, [op(x, y)]);
    assert [x, y][..1] == [x] && [x][..0] == [] && [op(x, y)][..0] == [];
  }

  // ------------------------------------------------------------------- one merge

  /** The maps of neighbouring strands i and i + 1 become one. */
  function MergedAt(maps: seq<RMap>, i: nat): seq<RMap>
    requires i + 1 < |maps|
  {
    maps[..i] + [Merged(maps[i], maps[i + 1])] + maps[i + 2..]
  }

  ghost predicate IsMerge<V(!new)>(op: (V, V) -> V, s: World<V>, i: nat, s': World<V>) {
    && i + 1 < |s.maps| && s'.maps == MergedAt(s.maps, i) && s'.keys == s.keys && s'.e == s.e
    && MergedStore(op, s.maps[i], s.maps[i + 1], s.store, s'.store)
  }

  /** The strand of the old sequence that a strand of the new one comes from. */
  function Source(i: nat, j: nat): nat { if j <= i then j else j + 1 }

  /** Facts about the two maps that are merged. */
  lemma MergeFacts<V>(s: World<V>, i: nat, k: Key)
    requires WorldOk(s) && i + 1 < |s.maps| && k in s.maps[i + 1].views
    ensures var l, r := s.maps[i], s.maps[i + 1];
            && r.views[k] in s.store && k in s.store && !r.leftmost
            && (k in l.views ==> l.views[k] in s.store && l.views[k] != r.views[k] && r.views[k] != k)
            && (k !in l.views && l.leftmost ==> i == 0 && (r.views[k] == k <==> k in s.e))
  {
    assert HasView(s, i + 1, k) && ViewOk(s, i + 1, k);
    if k in s.maps[i].views {
      assert HasView(s, i, k) && ViewOk(s, i, k) && ViewsDiffer(s, i, k, i + 1, k);
      if s.maps[i + 1].views[k] == k {
        RegisteredIsFirst(s, i, i + 1, k);
      }
    } else if s.maps[i].leftmost {
      assert FirstOk(s, i + 1, k);
    }
  }

  lemma FirstView<V>(s: World<V>, i: nat, k: Key) returns (f: nat)
    requires HasView(s, i, k)
    ensures f <= i && IsFirst(s, f, k)
  {
    f := 0;
    while !HasView(s, f, k)
      invariant f <= i && forall j: nat | j < f :: !HasView(s, j, k)
      decreases i - f
    {
      f := f + 1;
    }
  }

  /** Only the first view of a reducer can be its leftmost view. */
  lemma RegisteredIsFirst<V>(s: World<V>, i: nat, m: nat, k: Key)
    requires WorldOk(s) && HasView(s, i, k) && HasView(s, m, k) && i < m
    ensures ViewAt(s, m, k) != k
  {
    var f := FirstView(s, i, k);
    assert ViewOk(s, m, k) && FirstOk(s, f, k) && ViewsDiffer(s, f, k, m, k);
  }

  /** The view that a merged map has for a key, in terms of the two old maps. */
  lemma MergedView<V(!new)>(op: (V, V) -> V, s: World<V>, i: nat, s': World<V>, k: Key)
    requires WorldOk(s) && IsMerge(op, s, i, s') && HasView(s', i, k)
    ensures HasView(s, i, k) ==> ViewAt(s', i, k) == ViewAt(s, i, k)
    ensures !HasView(s, i, k) ==> HasView(s, i + 1, k)
    ensures !HasView(s, i, k) ==> ViewAt(s', i, k) == (if s.maps[i].leftmost then k else ViewAt(s, i + 1, k))
    ensures ViewOk(s', i, k)
  {
    assert s'.maps[i] == Merged(s.maps[i], s.maps[i + 1]);
    if HasView(s, i, k) {
      assert ViewOk(s, i, k);
    } else {
      assert ViewOk(s, i + 1, k);
      MergeFacts(s, i, k);
    }
  }

  lemma OtherView<V(!new)>(op: (V, V) -> V, s: World<V>, i: nat, s': World<V>, j: nat, k: Key)
    requires WorldOk(s) && IsMerge(op, s, i, s') && j < |s'.maps| && j != i
    ensures s'.maps[j] == s.maps[Source(i, j)]
    ensures HasView(s', j, k) ==> ViewOk(s', j, k)
  {
    assert HasView(s', j, k) ==> HasView(s, Source(i, j), k) && ViewOk(s, Source(i, j), k);
  }

  /** Where a view of the new maps was before: in the old maps, or nowhere, if
      it is a leftmost view used for the first time. */
  lemma ViewWas<V(!new)>(op: (V, V) -> V, s: World<V>, i: nat, s': World<V>, j: nat, k: Key)
    returns (fresh_: bool, m: nat)
    requires WorldOk(s) && IsMerge(op, s, i, s') && HasView(s', j, k)
    ensures fresh_ ==> j == i == 0 && s.maps[0].leftmost && ViewAt(s', j, k) == k && k !in s.e && !HasView(s, 0, k) && k in s.keys
    ensures !fresh_ ==> HasView(s, m, k) && ViewAt(s', j, k) == ViewAt(s, m, k)
    ensures !fresh_ ==> m == (if j < i then j else if j > i then j + 1 else if HasView(s, i, k) then i else i + 1)
  {
    if j != i {
      OtherView(op, s, i, s', j, k);
      fresh_, m := false, Source(i, j);
    } else {
      MergedView(op, s, i, s', k);
      if HasView(s, i, k) {
        fresh_, m := false, i;
      } else {
        MergeFacts(s, i, k);
        assert ViewOk(s, i + 1, k);
        fresh_, m := s.maps[i].leftmost && ViewAt(s, i + 1, k) != k, i + 1;
      }
    }
  }

  /** Nobody has the leftmost view of a reducer that the leftmost map does not
      have, unless it was registered elsewhere. */
  lemma LeftmostIsFree<V>(s: World<V>, i: nat, j: Key, k: Key)
    requires WorldOk(s) && HasView(s, i, j) && k in s.keys && k !in s.e && !HasView(s, 0, k)
    ensures ViewAt(s, i, j) != k
  {
    assert ViewOk(s, i, j);
  }

  /** Two views of the old maps, found at different places. */
  lemma OldViewsDiffer<V>(s: World<V>, a: nat, j: Key, b: nat, k: Key)
    requires WorldOk(s) && HasView(s, a, j) && HasView(s, b, k) && (a, j) != (b, k)
    ensures ViewAt(s, a, j) != ViewAt(s, b, k)
  {
    assert ViewsDiffer(s, a, j, b, k);
  }

  lemma ViewsStayDifferent<V(!new)>(op: (V, V) -> V, s: World<V>, i: nat, s': World<V>, a: nat, j: Key, b: nat, k: Key)
    requires WorldOk(s) && IsMerge(op, s, i, s') && HasView(s', a, j) && HasView(s', b, k)
    ensures ViewsDiffer(s', a, j, b, k)
  {
    if (a, j) != (b, k) {
      var fa, ma := ViewWas(op, s, i, s', a, j);
      var fb, mb := ViewWas(op, s, i, s', b, k);
      if !fa && !fb {
        OldViewsDiffer(s, ma, j, mb, k);
      } else if fa && !fb {
        LeftmostIsFree(s, mb, k, j);
      } else if !fa && fb {
        LeftmostIsFree(s, ma, j, k);
      }
    }
  }

  lemma FirstStaysOk<V(!new)>(op: (V, V) -> V, s: World<V>, i: nat, s': World<V>, j: nat, k: Key)
    requires WorldOk(s) && IsMerge(op, s, i, s')
    ensures FirstOk(s', j, k)
  {
    if IsFirst(s', j, k) && k in s.e {
      var fr, m := ViewWas(op, s, i, s', j, k);
      forall n: nat | n < m ensures !HasView(s, n, k) {
        var n' := if n <= i then n else n - 1;
        if n' != i {
          assert !HasView(s', n', k);
          OtherView(op, s, i, s', n', k);
        } else if n' < j {
          assert !HasView(s', n', k);
        }
      }
      assert FirstOk(s, m, k);
    }
  }

  lemma MergeKeepsWorld<V(!new)>(op: (V, V) -> V, s: World<V>, i: nat, s': World<V>)
    requires WorldOk(s) && IsMerge(op, s, i, s')
    ensures WorldOk(s')
  {
    forall j: nat, k | HasView(s', j, k) ensures ViewOk(s', j, k) {
      if j == i { MergedView(op, s, i, s', k); } else { OtherView(op, s, i, s', j, k); }
    }
    forall j: nat, k ensures FirstOk(s', j, k) {
      FirstStaysOk(op, s, i, s', j, k);
    }
    forall a: nat, j, b: nat, k | HasView(s', a, j) && HasView(s', b, k) ensures ViewsDiffer(s', a, j, b, k) {
      ViewsStayDifferent(op, s, i, s', a, j, b, k);
    }
  }

  // ------------------------------------------------------------- nothing changes

  /** A view that belongs to no reduction keeps its value. */
  lemma UntouchedView<V(!new)>(op: (V, V) -> V, s: World<V>, i: nat, s': World<V>, j: nat, k: Key)
    requires WorldOk(s) && IsMerge(op, s, i, s') && HasView(s, j, k)
    requires j == i ==> k !in s.maps[i + 1].views
    ensures ViewAt(s, j, k) in s.store && ViewAt(s, j, k) in s'.store
    ensures s'.store[ViewAt(s, j, k)] == s.store[ViewAt(s, j, k)]
  {
    var l, r, v := s.maps[i], s.maps[i + 1], ViewAt(s, j, k);
    assert ViewOk(s, j, k);
    forall h | Reduces(l, r, h) ensures Surviving(l, r, h) != v {
      MergeFacts(s, i, h);
      if h in l.views {
        assert HasView(s, i, h) && ViewsDiffer(s, i, h, j, k);
      } else if l.leftmost {
        assert ViewOk(s, i + 1, h);
        LeftmostIsFree(s, j, k, h);
      }
    }
  }

  /** The leftmost view of a reducer that nobody has used keeps its value. */
  lemma UntouchedInitial<V(!new)>(op: (V, V) -> V, s: World<V>, i: nat, s': World<V>, k: Key)
    requires WorldOk(s) && IsMerge(op, s, i, s') && k in s.keys && k !in s.e && !HasView(s, 0, k)
    requires i == 0 ==> !HasView(s, 1, k)
    ensures s'.store[k] == s.store[k]
  {
    var l, r := s.maps[i], s.maps[i + 1];
    forall h | Reduces(l, r, h) ensures Surviving(l, r, h) != k {
      MergeFacts(s, i, h);
      if h in l.views {
        LeftmostIsFree(s, i, h, k);
      }
    }
  }

  lemma OtherValue<V(!new)>(op: (V, V) -> V, id: V, s: World<V>, i: nat, s': World<V>, j: nat, k: Key)
    requires WorldOk(s) && IsMerge(op, s, i, s') && j < |s'.maps| && j != i && k in s.keys
    ensures ValueAt(s', id, j, k) == ValueAt(s, id, Source(i, j), k)
  {
    OtherView(op, s, i, s', j, k);
    var m := Source(i, j);
    if HasView(s, m, k) {
      UntouchedView(op, s, i, s', m, k);
    } else if s.maps[m].leftmost && k !in s.e {
      UntouchedInitial(op, s, i, s', k);
    }
  }

  /** The value of the merged map is the value of the left one, then the right one. */
  lemma MergedValue<V(!new)>(op: (V, V) -> V, id: V, s: World<V>, i: nat, s': World<V>, k: Key)
    requires IsIdentity(op, id) && WorldOk(s) && IsMerge(op, s, i, s') && k in s.keys
    ensures ValueAt(s', id, i, k) == op(ValueAt(s, id, i, k), ValueAt(s, id, i + 1, k))
  {
    var l, r := s.maps[i], s.maps[i + 1];
    assert s'.maps[i] == Merged(l, r);
    if HasView(s, i + 1, k) {
      MergeFacts(s, i, k);
      if HasView(s, i, k) || (l.leftmost && r.views[k] != k) {
        assert Reduces(l, r, k);
      } else {
        UntouchedView(op, s, i, s', i + 1, k);
      }
    } else if HasView(s, i, k) {
      assert ViewOk(s, i, k);
      UntouchedView(op, s, i, s', i, k);
    } else if l.leftmost && k !in s.e {
      UntouchedInitial(op, s, i, s', k);
    }
  }

  lemma NewValue<V(!new)>(op: (V, V) -> V, id: V, s: World<V>, i: nat, s': World<V>, j: nat, k: Key)
    requires IsIdentity(op, id) && WorldOk(s) && IsMerge(op, s, i, s') && k in s.keys && j < |s'.maps|
    ensures ValueAt(s', id, j, k) ==
      if j == i then op(ValueAt(s, id, i, k), ValueAt(s, id, i + 1, k)) else ValueAt(s, id, Source(i, j), k)
  {
    if j == i { MergedValue(op, id, s, i, s', k); } else { OtherValue(op, id, s, i, s', j, k); }
  }

  lemma Split<T>(s: seq<T>, i: nat)
    requires i + 1 < |s|
    ensures s == s[..i] + [s[i], s[i + 1]] + s[i + 2..]
  {
  }

  lemma Joined<T>(s: seq<T>, i: nat, t: seq<T>)
    requires i + 1 < |s| && |t| == |s| - 1 && forall j: nat | j < |t| && j != i :: t[j] == s[Source(i, j)]
    ensures t == s[..i] + [t[i]] + s[i + 2..]
  {
  }

  lemma ValuesMerge<V(!new)>(op: (V, V) -> V, id: V, s: World<V>, i: nat, s': World<V>, k: Key)
    requires IsIdentity(op, id) && WorldOk(s) && IsMerge(op, s, i, s') && k in s.keys
    ensures var vs := Values(s, id, k);
            Values(s', id, k) == vs[..i] + [op(vs[i], vs[i + 1])] + vs[i + 2..]
  {
    var vs, vs' := Values(s, id, k), Values(s', id, k);
    forall j: nat | j < |vs'| && j != i ensures vs'[j] == vs[Source(i, j)] {
      NewValue(op, id, s, i, s', j, k);
    }
    NewValue(op, id, s, i, s', i, k);
    Joined(vs, i, vs');
  }

  /** The value of reducer k in the serial run of the strands. */
  ghost function Serial<V>(op: (V, V) -> V, id: V, s: World<V>, k: Key): V { Fold(op, id, Values(s, id, k)) }

  /** A merge of any two neighbours leaves the serial fold as it is. */
  lemma MergeKeepsFold<V(!new)>(op: (V, V) -> V, id: V, s: World<V>, i: nat, s': World<V>, k: Key)
    requires IsMonoid(op, id) && WorldOk(s) && IsMerge(op, s, i, s') && k in s.keys
    ensures Serial(op, id, s', k) == Serial(op, id, s, k)
  {
    var vs := Values(s, id, k);
    ValuesMerge(op, id, s, i, s', k);
    Split(vs, i);
    FoldOfTwo(op, id, vs[..i], vs[i], vs[i + 1], vs[i + 2..]);
  }

  ghost predicate IsStep<V(!new)>(op: (V, V) -> V, run: seq<World<V>>, at: seq<nat>, n: nat)
    requires n < |at| && n + 1 < |run|
  {
    IsMerge(op, run[n], at[n], run[n + 1])
  }

  ghost predicate IsRun<V(!new)>(op: (V, V) -> V, run: seq<World<V>>, at: seq<nat>) {
    && |run| == |at| + 1
    && forall n: nat {:trigger IsStep(op, run, at, n)} | n < |at| :: IsStep(op, run, at, n)
  }

  lemma {:induction false} RunKeepsWorld<V(!new)>(op: (V, V) -> V, run: seq<World<V>>, at: seq<nat>, n: nat)
    requires IsRun(op, run, at) && WorldOk(run[0]) && n < |run|
    ensures WorldOk(run[n]) && run[n].keys == run[0].keys
  {
    if n > 0 {
      RunKeepsWorld(op, run, at, n - 1);
      assert IsStep(op, run, at, n - 1);
      MergeKeepsWorld(op, run[n - 1], at[n - 1], run[n]);
    }
  }

  lemma RunStepKeepsFold<V(!new)>(op: (V, V) -> V, id: V, run: seq<World<V>>, at: seq<nat>, n: nat, k: Key)
    requires IsMonoid(op, id) && IsRun(op, run, at) && WorldOk(run[0]) && k in run[0].keys && n < |at|
    ensures Serial(op, id, run[n + 1], k) == Serial(op, id, run[n], k)
  {
    RunKeepsWorld(op, run, at, n);
    assert IsStep(op, run, at, n);
    MergeKeepsFold(op, id, run[n], at[n], run[n + 1], k);
  }

  lemma RunKeepsFold<V(!new)>(op: (V, V) -> V, id: V, run: seq<World<V>>, at: seq<nat>, k: Key)
    requires IsMonoid(op, id) && IsRun(op, run, at) && WorldOk(run[0]) && k in run[0].keys
    ensures Serial(op, id, run[|at|], k) == Serial(op, id, run[0], k)
  {
    var n := 0;
    while n < |at|
      invariant n <= |at| && Serial(op, id, run[n], k) == Serial(op, id, run[0], k)
    {
      RunStepKeepsFold(op, id, run, at, n, k);
      n := n + 1;
    }
  }

  /** Reducers are deterministic: in whatever order neighbouring maps are merged,
      the one map that is left has the value of the serial run. */
  lemma ReducersAreDeterministic<V(!new)>(op: (V, V) -> V, id: V, run: seq<World<V>>, at: seq<nat>, k: Key)
    requires IsMonoid(op, id) && IsRun(op, run, at) && WorldOk(run[0]) && k in run[0].keys
    requires |run[|at|].maps| == 1
    ensures ValueAt(run[|at|], id, 0, k) == Serial(op, id, run[0], k)
  {
    RunKeepsFold(op, id, run, at, k);
    var vs := Values(run[|at|], id, k);
    assert Serial(op, id, run[|at|], k) == Fold(op, id, vs) == op(Fold(op, id, vs[..0]), vs[0]);
  }

  // ------------------------------------------------------------- every view once

  ghost predicate IsLive<V>(s: World<V>, v: View) {
    exists i: nat, k :: HasView(s, i, k) && ViewAt(s, i, k) == v
  }

  /** A view that is live stays live or is destroyed, not both; what is destroyed
      was live and is no leftmost view; and only leftmost views come to life. */
  lemma ViewsAreDestroyedOnce<V(!new)>(op: (V, V) -> V, s: World<V>, i: nat, s': World<V>, v: View)
    requires WorldOk(s) && IsMerge(op, s, i, s')
    ensures v in Destroyed(s.maps[i], s.maps[i + 1]) ==> IsLive(s, v) && !IsLive(s', v) && v !in s.keys
    ensures IsLive(s, v) ==> IsLive(s', v) || v in Destroyed(s.maps[i], s.maps[i + 1])
    ensures IsLive(s', v) && !IsLive(s, v) ==> v in s.keys && i == 0 && s.maps[0].leftmost
  {
    if v in Destroyed(s.maps[i], s.maps[i + 1]) {
      DestroyedIsGone(op, s, i, s', v);
    }
    if IsLive(s, v) {
      var j: nat, k :| HasView(s, j, k) && ViewAt(s, j, k) == v;
      LiveStays(op, s, i, s', j, k);
    }
    if IsLive(s', v) {
      var j: nat, k :| HasView(s', j, k) && ViewAt(s', j, k) == v;
      var fr, m := ViewWas(op, s, i, s', j, k);
    }
  }

  lemma DestroyedIsGone<V(!new)>(op: (V, V) -> V, s: World<V>, i: nat, s': World<V>, v: View)
    requires WorldOk(s) && IsMerge(op, s, i, s') && v in Destroyed(s.maps[i], s.maps[i + 1])
    ensures IsLive(s, v) && !IsLive(s', v) && v !in s.keys
  {
    var k :| k in s.maps[i + 1].views && Surviving(s.maps[i], s.maps[i + 1], k) != s.maps[i + 1].views[k] && s.maps[i + 1].views[k] == v;
    assert HasView(s, i + 1, k) && ViewAt(s, i + 1, k) == v && ViewOk(s, i + 1, k);
    MergeFacts(s, i, k);
    forall a: nat, j | HasView(s', a, j) ensures ViewAt(s', a, j) != v {
      var fr, m := ViewWas(op, s, i, s', a, j);
      if !fr {
        OldViewsDiffer(s, m, j, i + 1, k);
      }
    }
  }

  lemma LiveStays<V(!new)>(op: (V, V) -> V, s: World<V>, i: nat, s': World<V>, j: nat, k: Key)
    requires WorldOk(s) && IsMerge(op, s, i, s') && HasView(s, j, k)
    ensures IsLive(s', ViewAt(s, j, k)) || ViewAt(s, j, k) in Destroyed(s.maps[i], s.maps[i + 1])
  {
    var l, r, v := s.maps[i], s.maps[i + 1], ViewAt(s, j, k);
    if j == i + 1 && Surviving(l, r, k) != r.views[k] {
      assert v in Destroyed(l, r);
    } else {
      var j' := if j <= i then j else j - 1;
      if j' != i { OtherView(op, s, i, s', j', k); }
      assert s'.maps[i] == Merged(l, r);
      assert HasView(s', j', k) && ViewAt(s', j', k) == v;
    }
  }

  /** Merging the maps of strands i and i + 1 destroys v. */
  predicate MergeDestroys<V>(s: World<V>, i: nat, v: View) {
    i + 1 < |s.maps| && v in Destroyed(s.maps[i], s.maps[i + 1])
  }

  /** Step n of the run destroys v. */
  predicate DestroysAt<V>(run: seq<World<V>>, at: seq<nat>, n: nat, v: View)
    requires n < |at| && n < |run|
  {
    MergeDestroys(run[n], at[n], v)
  }

  lemma MergeViews<V(!new)>(op: (V, V) -> V, s: World<V>, i: nat, s': World<V>, v: View)
    requires WorldOk(s) && IsMerge(op, s, i, s')
    ensures s'.keys == s.keys
    ensures MergeDestroys(s, i, v) ==> IsLive(s, v) && !IsLive(s', v) && v !in s.keys
    ensures IsLive(s, v) ==> IsLive(s', v) || MergeDestroys(s, i, v)
    ensures IsLive(s', v) && !IsLive(s, v) ==> v in s.keys
  {
    ViewsAreDestroyedOnce(op, s, i, s', v);
  }

  /** What one step of a run does to a view. */
  lemma RunStepViews<V(!new)>(op: (V, V) -> V, run: seq<World<V>>, at: seq<nat>, n: nat, v: View)
    requires IsRun(op, run, at) && WorldOk(run[0]) && n < |at|
    ensures run[n + 1].keys == run[n].keys
    ensures DestroysAt(run, at, n, v) ==> IsLive(run[n], v) && !IsLive(run[n + 1], v) && v !in run[n].keys
    ensures IsLive(run[n], v) ==> IsLive(run[n + 1], v) || DestroysAt(run, at, n, v)
    ensures IsLive(run[n + 1], v) && !IsLive(run[n], v) ==> v in run[n].keys
  {
    RunKeepsWorld(op, run, at, n);
    assert IsStep(op, run, at, n);
    MergeViews(op, run[n], at[n], run[n + 1], v);
  }

  ghost predicate IsGone<V>(s: World<V>, v: View) { !IsLive(s, v) && v !in s.keys }

  lemma GoneStaysGone<V(!new)>(op: (V, V) -> V, run: seq<World<V>>, at: seq<nat>, n: nat, v: View)
    requires IsRun(op, run, at) && WorldOk(run[0]) && n < |at|
    ensures DestroysAt(run, at, n, v) ==> IsGone(run[n + 1], v) && !IsGone(run[n], v)
    ensures IsGone(run[n], v) ==> IsGone(run[n + 1], v)
  {
    RunStepViews(op, run, at, n, v);
  }

  lemma {:induction false} DestroyedIsGoneForGood<V(!new)>(op: (V, V) -> V, run: seq<World<V>>, at: seq<nat>, m: nat, n: nat, v: View)
    requires IsRun(op, run, at) && WorldOk(run[0]) && m < n <= |at| && DestroysAt(run, at, m, v)
    ensures IsGone(run[n], v)
  {
    GoneStaysGone(op, run, at, n - 1, v);
    if m < n - 1 {
      DestroyedIsGoneForGood(op, run, at, m, n - 1, v);
    }
  }

  /** Over a whole run no view is destroyed twice. */
  lemma NoViewDiesTwice<V(!new)>(op: (V, V) -> V, run: seq<World<V>>, at: seq<nat>, m: nat, n: nat, v: View)
    requires IsRun(op, run, at) && WorldOk(run[0]) && m < n < |at| && DestroysAt(run, at, m, v)
    ensures !DestroysAt(run, at, n, v)
  {
    DestroyedIsGoneForGood(op, run, at, m, n, v);
    GoneStaysGone(op, run, at, n, v);
  }

  /** A view is still there at the end of a run, or some merge has destroyed it. */
  lemma LiveOrDestroyed<V(!new)>(op: (V, V) -> V, run: seq<World<V>>, at: seq<nat>, v: View)
    requires IsRun(op, run, at) && WorldOk(run[0]) && IsLive(run[0], v)
    ensures IsLive(run[|at|], v) || exists m: nat :: m < |at| && DestroysAt(run, at, m, v)
  {
    var n := 0;
    while n < |at|
      invariant n <= |at| && IsLive(run[n], v)
    {
      RunStepViews(op, run, at, n, v);
      if DestroysAt(run, at, n, v) {
        return;
      }
      n := n + 1;
    }
  }

  // ------------------------------------------------------------ the maps in memory

  /** What the callers of a merge guarantee: no view is found at two places, and
      none that is reduced into another is the leftmost view of its reducer. */
  ghost predicate Separate<V>(l: RMap, r: RMap, store: map<View, V>) {
    && !r.leftmost
    && (forall k | k in r.views :: r.views[k] in store && Surviving(l, r, k) in store)
    && (forall k | Reduces(l, r, k) :: r.views[k] != k)
    && (forall k | k in l.views && k in r.views :: l.views[k] != r.views[k])
    && (forall j, k | j in r.views && k in r.views && j != k :: r.views[j] != r.views[k])
    && (forall j, k | j in r.views && k in r.views && j != k :: Surviving(l, r, j) != Surviving(l, r, k))
    && (forall j, k | j in r.views && k in r.views && j != k :: Surviving(l, r, j) != r.views[k])
  }

  lemma NeighboursAreSeparate<V>(s: World<V>, i: nat)
    requires WorldOk(s) && i + 1 < |s.maps|
    ensures Separate(s.maps[i], s.maps[i + 1], s.store)
  {
    var l, r := s.maps[i], s.maps[i + 1];
    forall k | k in r.views ensures r.views[k] in s.store && Surviving(l, r, k) in s.store {
      MergeFacts(s, i, k);
    }
    forall k | Reduces(l, r, k) ensures r.views[k] != k {
      MergeFacts(s, i, k);
    }
    forall k | k in l.views && k in r.views ensures l.views[k] != r.views[k] {
      MergeFacts(s, i, k);
    }
    forall j, k | j in r.views && k in r.views && j != k
      ensures r.views[j] != r.views[k] && Surviving(l, r, j) != r.views[k] && Surviving(l, r, j) != Surviving(l, r, k)
    {
      SurvivorsDiffer(s, i, j, k);
    }
  }

  lemma SurvivorsDiffer<V>(s: World<V>, i: nat, j: Key, k: Key)
    requires WorldOk(s) && i + 1 < |s.maps| && j != k
    requires j in s.maps[i + 1].views && k in s.maps[i + 1].views
    ensures var l, r := s.maps[i], s.maps[i + 1];
            && r.views[j] != r.views[k] && Surviving(l, r, j) != r.views[k] && Surviving(l, r, j) != Surviving(l, r, k)
  {
    var l, r := s.maps[i], s.maps[i + 1];
    MergeFacts(s, i, j);
    MergeFacts(s, i, k);
    assert HasView(s, i + 1, j) && HasView(s, i + 1, k) && ViewOk(s, i + 1, j) && ViewOk(s, i + 1, k);
    OldViewsDiffer(s, i + 1, j, i + 1, k);
    if j in l.views {
      assert HasView(s, i, j) && ViewOk(s, i, j);
      OldViewsDiffer(s, i, j, i + 1, k);
    }
    if k in l.views {
      assert HasView(s, i, k) && ViewOk(s, i, k);
      OldViewsDiffer(s, i, k, i + 1, j);
      if j in l.views {
        OldViewsDiffer(s, i, j, i, k);
      }
    }
  }

  /** The values of all views, and the views that were destroyed, in order. */
  class ViewHeap<V> {
    var value: map<View, V>
    var destroyed: seq<View>

    constructor (value: map<View, V>)
      ensures this.value == value && destroyed == []
    {
      this.value := value;
      destroyed := [];
    }
  }

  predicate Distinct<T(==)>(s: seq<T>) {
    forall i, j | 0 <= i < j < |s| :: s[i] != s[j]
  }

  /** order is the order in which the hash table of m lists its elements. */
  ghost predicate Lists(order: seq<Key>, m: map<Key, View>) {
    Distinct(order) && forall k :: k in order <==> k in m
  }

  ghost predicate AreFirst(order: seq<Key>, n: nat, done: set<Key>)
    requires n <= |order|
  {
    forall k :: k in done <==> k in order[..n]
  }

  lemma NextIsNew(order: seq<Key>, n: nat, done: set<Key>)
    requires Distinct(order) && n < |order| && AreFirst(order, n, done)
    ensures order[n] in order && order[n] !in done && AreFirst(order, n + 1, done + {order[n]})
  {
    assert order[..n + 1] == order[..n] + [order[n]];
  }

  /** The merge is done for the reducers in done. */
  ghost predicate PartlyMerged<V(!new)>(op: (V, V) -> V, l: RMap, r: RMap, store: map<View, V>, done: set<Key>, store': map<View, V>) {
    && store'.Keys == store.Keys
    && (forall k | Reduces(l, r, k) :: Surviving(l, r, k) in store && r.views[k] in store)
    && (forall k | Reduces(l, r, k) && k in done ::
          store'[Surviving(l, r, k)] == op(store[Surviving(l, r, k)], store[r.views[k]]))
    && (forall v | v in store && (forall k | Reduces(l, r, k) && k in done :: Surviving(l, r, k) != v) :: store'[v] == store[v])
  }

  lemma StillUntouched<V(!new)>(op: (V, V) -> V, l: RMap, r: RMap, store: map<View, V>, done: set<Key>, store': map<View, V>, k: Key)
    requires Separate(l, r, store) && PartlyMerged(op, l, r, store, done, store') && k !in done && Reduces(l, r, k)
    ensures Surviving(l, r, k) in store' && store'[Surviving(l, r, k)] == store[Surviving(l, r, k)]
    ensures r.views[k] in store' && store'[r.views[k]] == store[r.views[k]]
  {
  }

  lemma OneMore<V(!new)>(op: (V, V) -> V, l: RMap, r: RMap, store: map<View, V>, done: set<Key>, store': map<View, V>, k: Key)
    requires Separate(l, r, store) && PartlyMerged(op, l, r, store, done, store') && k !in done && Reduces(l, r, k)
    ensures var v, w := Surviving(l, r, k), r.views[k];
            v in store' && w in store'
            && PartlyMerged(op, l, r, store, done + {k}, store'[v := op(store'[v], store'[w])])
  {
    var v, w := Surviving(l, r, k), r.views[k];
    StillUntouched(op, l, r, store, done, store', k);
    var store'' := store'[v := op(store'[v], store'[w])];
    forall h | Reduces(l, r, h) && h in done + {k} ensures store''[Surviving(l, r, h)] == op(store[Surviving(l, r, h)], store[r.views[h]]) {
      assert h != k ==> Surviving(l, r, h) != v;
    }
    forall u | u in store && (forall h | Reduces(l, r, h) && h in done + {k} :: Surviving(l, r, h) != u) ensures store''[u] == store[u] {
      assert u != v;
      assert forall h | Reduces(l, r, h) && h in done :: Surviving(l, r, h) != u;
    }
  }

  /** The views of the map that is kept, while the reducers in done are merged. */
  function MergedHere(l: RMap, r: RMap, kind: Kind, done: set<Key>): map<Key, View>
    requires forall k | k in done :: k in (if kind.IntoLeft? then r else l).views
  {
    match kind
    case IntoLeft => map k | k in l.views.Keys + done :: Surviving(l, r, k)
    case IntoRight => map k | k in r.views.Keys + done :: if k in done then l.views[k] else r.views[k]
  }

  /** The views of the map that is given up. */
  function LeftThere(l: RMap, r: RMap, kind: Kind, done: set<Key>): map<Key, View> {
    match kind
    case IntoLeft => map k | k in r.views.Keys && (k in done ==> Reduces(l, r, k)) :: r.views[k]
    case IntoRight => map k | k in l.views.Keys && (k in done ==> k in r.views) :: if k in done then r.views[k] else l.views[k]
  }

  /** How the two maps change when one more element has been merged. */
  lemma NextElement(l: RMap, r: RMap, kind: Kind, done: set<Key>, key: Key)
    requires done <= (if kind.IntoLeft? then r else l).views.Keys && key !in done
    requires key in (if kind.IntoLeft? then r else l).views && (kind.IntoRight? ==> !l.leftmost)
    requires forall k | k in l.views && k in r.views :: l.views[k] != r.views[k]
    ensures var here, here' := MergedHere(l, r, kind, done), MergedHere(l, r, kind, done + {key});
            var there, there' := LeftThere(l, r, kind, done), LeftThere(l, r, kind, done + {key});
            && (key in here <==> key in (if kind.IntoLeft? then l else r).views)
            && here' == here[key := Surviving(l, r, key)]
            && (kind.IntoRight? ==> (key in here <==> Reduces(l, r, key)))
            && key in there && there[key] == (if kind.IntoLeft? then r.views[key] else l.views[key])
            && (key in here ==> here[key] == (if kind.IntoLeft? then l.views[key] else r.views[key]))
            && there' == (if Reduces(l, r, key) then there[key := r.views[key]] else there - {key})
  {
  }

  lemma NoneMore<V(!new)>(op: (V, V) -> V, l: RMap, r: RMap, store: map<View, V>, done: set<Key>, store': map<View, V>, k: Key)
    requires PartlyMerged(op, l, r, store, done, store') && !Reduces(l, r, k)
    ensures PartlyMerged(op, l, r, store, done + {k}, store')
  {
  }

  lemma AllMatched(l: RMap, r: RMap, kind: Kind, done: set<Key>)
    requires (kind.IntoRight? ==> !l.leftmost) && done == (if kind.IntoLeft? then r else l).views.Keys
    requires forall k | k in l.views && k in r.views :: l.views[k] != r.views[k]
    ensures MergedHere(l, r, kind, done) == MergedViews(l, r)
    ensures LeftThere(l, r, kind, done) == map k | k in r.views.Keys && Reduces(l, r, k) :: r.views[k]
    ensures LeftThere(l, r, kind, done).Values == Destroyed(l, r)
  {
    var there := LeftThere(l, r, kind, done);
    assert forall k :: k in there <==> Reduces(l, r, k);
    assert forall k | k in there :: there[k] == r.views[k];
  }

  lemma AllReduced<V(!new)>(op: (V, V) -> V, l: RMap, r: RMap, kind: Kind, store: map<View, V>, done: set<Key>, store': map<View, V>)
    requires Separate(l, r, store) && (kind.IntoRight? ==> !l.leftmost)
    requires done == (if kind.IntoLeft? then r else l).views.Keys && PartlyMerged(op, l, r, store, done, store')
    ensures MergedStore(op, l, r, store, store')
  {
    assert forall k | Reduces(l, r, k) :: k in done;
  }

  /** Destroying a map with these views destroys view v. */
  ghost predicate DestroysView(views: map<Key, View>, v: View) {
    exists k :: k in views && views[k] == v && v != k
  }

  /** A reducer map: which view of which reducer it has. An element whose view
      was set to null is no element any more. */
  class StrandMap {
    var views: map<Key, View>
    var leftmost: bool

    constructor ()
      ensures Value() == RMap(map[], false)
    {
      views := map[];
      leftmost := false;
    }

    function Value(): RMap
      reads this
    {
      RMap(views, leftmost)
    }

    method Merge<V(!new)>(op: (V, V) -> V, other: StrandMap, order: seq<Key>, kind: Kind, heap: ViewHeap<V>)
      requires this != other && Lists(order, other.views)
      requires kind.IntoLeft? ==> Separate(Value(), other.Value(), heap.value)
      requires kind.IntoRight? ==> !other.leftmost && Separate(other.Value(), Value(), heap.value)
      modifies this, other, heap
      ensures kind.IntoLeft? ==> WasMerged(op, old(Value()), old(other.Value()), old(heap.value), old(heap.destroyed), Value(), heap)
      ensures kind.IntoRight? ==> WasMerged(op, old(other.Value()), old(Value()), old(heap.value), old(heap.destroyed), Value(), heap)
    {
      ghost var l := if kind.IntoLeft? then Value() else other.Value();
      ghost var r := if kind.IntoLeft? then other.Value() else Value();
      MergeElements(op, other, order, kind, heap, l, r);
      leftmost := leftmost || other.leftmost;
      other.Destroy(order, heap);
    }

    /** The loop of a merge. */
    method MergeElements<V(!new)>(op: (V, V) -> V, other: StrandMap, order: seq<Key>, kind: Kind, heap: ViewHeap<V>,
                                  ghost l: RMap, ghost r: RMap)
      requires this != other && Lists(order, other.views) && Separate(l, r, heap.value)
      requires Value() == (if kind.IntoLeft? then l else r) && other.Value() == (if kind.IntoLeft? then r else l)
      requires kind.IntoRight? ==> !l.leftmost
      modifies `views, other`views, heap`value
      ensures views == MergedViews(l, r) && MergedStore(op, l, r, old(heap.value), heap.value)
      ensures forall k :: k in other.views ==> k in order
      ensures forall k :: k in other.views <==> Reduces(l, r, k)
      ensures forall k | k in other.views :: other.views[k] == r.views[k]
      ensures other.views.Values == Destroyed(l, r)
    {
      var n := 0;
      ghost var done := {};
      while n < |order|
        invariant n <= |order| && AreFirst(order, n, done)
        invariant Matched(l, r, kind, done, other)
        invariant PartlyMerged(op, l, r, old(heap.value), done, heap.value)
      {
        NextIsNew(order, n, done);
        MergeElement(op, other, order[n], kind, heap, l, r, old(heap.value), done);
        done := done + {order[n]};
        n := n + 1;
      }
      assert order[..n] == order;
      assert forall k :: k in done <==> k in order;
      assert done == (if kind.IntoLeft? then r else l).views.Keys;
      AllMatched(l, r, kind, done);
      AllReduced(op, l, r, kind, old(heap.value), done, heap.value);
    }

    ghost predicate Matched(l: RMap, r: RMap, kind: Kind, done: set<Key>, other: StrandMap)
      reads this, other
    {
      && done <= (if kind.IntoLeft? then r else l).views.Keys
      && views == MergedHere(l, r, kind, done) && other.views == LeftThere(l, r, kind, done)
    }

    /** The body of the loop of a merge. */
    method MergeElement<V(!new)>(op: (V, V) -> V, other: StrandMap, key: Key, kind: Kind, heap: ViewHeap<V>,
                                 ghost l: RMap, ghost r: RMap, ghost store: map<View, V>, ghost done: set<Key>)
      requires this != other && Separate(l, r, store) && Matched(l, r, kind, done, other)
      requires PartlyMerged(op, l, r, store, done, heap.value)
      requires leftmost == (kind.IntoLeft? && l.leftmost) && (kind.IntoRight? ==> !l.leftmost)
      requires key in (if kind.IntoLeft? then r else l).views && key !in done
      modifies `views, other`views, heap`value
      ensures Matched(l, r, kind, done + {key}, other)
      ensures PartlyMerged(op, l, r, store, done + {key}, heap.value)
    {
      var both := MatchElement(other, key, kind, l, r, done);
      if both {
        OneMore(op, l, r, store, done, heap.value, key);
        heap.value := heap.value[views[key] := op(heap.value[views[key]], heap.value[other.views[key]])];
      } else {
        NoneMore(op, l, r, store, done, heap.value, key);
      }
    }

    /** Brings the two views of a reducer to where they belong, or moves the one
        there is. */
    method MatchElement(other: StrandMap, key: Key, kind: Kind, ghost l: RMap, ghost r: RMap, ghost done: set<Key>)
      returns (both: bool)
      requires this != other && Matched(l, r, kind, done, other)
      requires forall k | k in l.views && k in r.views :: l.views[k] != r.views[k]
      requires leftmost == (kind.IntoLeft? && l.leftmost) && (kind.IntoRight? ==> !l.leftmost)
      requires key in (if kind.IntoLeft? then r else l).views && key !in done
      modifies `views, other`views
      ensures Matched(l, r, kind, done + {key}, other)
      ensures both == Reduces(l, r, key)
      ensures both ==> key in views && views[key] == Surviving(l, r, key)
      ensures both ==> key in other.views && other.views[key] == r.views[key]
    {
      NextElement(l, r, kind, done, key);
      var otherView := other.views[key];
      if key !in views && leftmost && key != otherView {
        views := views[key := key];
      }
      both := key in views;
      if !both {
        views := views[key := otherView];
        other.views := other.views - {key};
      } else if kind.IntoRight? {
        other.views := other.views[key := views[key]];
        views := views[key := otherView];
      }
    }

    /** Destroys the views that are left, but for leftmost ones, which belong to
        their reducers. */
    method Destroy<V>(order: seq<Key>, heap: ViewHeap<V>)
      requires Distinct(order) && forall k | k in views :: k in order
      requires forall j, k | j in views && k in views && j != k :: views[j] != views[k]
      modifies heap`destroyed
      ensures exists d :: heap.destroyed == old(heap.destroyed) + d && Distinct(d) && forall v :: v in d <==> DestroysView(views, v)
    {
      var n := 0;
      ghost var d: seq<View> := [];
      while n < |order|
        invariant n <= |order| && heap.destroyed == old(heap.destroyed) + d
        invariant Distinct(d)
        invariant forall v :: v in d <==> exists k :: k in views && k in order[..n] && views[k] == v && v != k
      {
        var key := order[n];
        assert order[..n + 1] == order[..n] + [key];
        assert key !in order[..n];
        if key in views && views[key] != key {
          assert views[key] !in d;
          heap.destroyed := heap.destroyed + [views[key]];
          d := d + [views[key]];
        }
        n := n + 1;
      }
      assert order[..n] == order;
    }
  }

  ghost predicate WasMerged<V(!new)>(op: (V, V) -> V, l: RMap, r: RMap, store: map<View, V>, before: seq<View>, kept: RMap, heap: ViewHeap<V>)
    reads heap
  {
    && kept == Merged(l, r)
    && MergedStore(op, l, r, store, heap.value)
    && exists d :: heap.destroyed == before + d && Distinct(d) && forall v :: v in d <==> v in Destroyed(l, r)
  }

  /** Merges the maps of two neighbours in the faster direction; no map stands for
      an empty one. The leftmost map always stays. */
  method MergeReducerMaps<V(!new)>(op: (V, V) -> V, left: StrandMap?, right: StrandMap?,
                                   leftOrder: seq<Key>, rightOrder: seq<Key>, heap: ViewHeap<V>)
    returns (result: StrandMap?)
    requires left != null && right != null ==> left != right && Separate(left.Value(), right.Value(), heap.value)
    requires left != null ==> Lists(leftOrder, left.views)
    requires right != null ==> Lists(rightOrder, right.views)
    modifies left, right, heap
    ensures left == null ==> result == right
    ensures right == null ==> result == left
    ensures left == null || right == null ==> heap.value == old(heap.value) && heap.destroyed == old(heap.destroyed)
    ensures left == null || right == null ==> ValueOf(result) == old(ValueOf(result))
    ensures left != null && right != null ==> result == left || result == right
    ensures left != null || !old(ValueOf(right)).leftmost ==>
      WasMerged(op, old(ValueOf(left)), old(ValueOf(right)), old(heap.value), old(heap.destroyed), ValueOf(result), heap)
    ensures left != null && right != null && old(left.leftmost) ==> result == left
  {
    MissingMapIsEmpty(op, ValueOf(left), heap.value);
    MissingMapIsEmpty(op, ValueOf(right), heap.value);
    if left == null {
      assert heap.destroyed == heap.destroyed + [];
      return right;
    }
    if right == null {
      assert heap.destroyed == heap.destroyed + [];
      return left;
    }
    if left.leftmost || |left.views| > |right.views| {
      left.Merge(op, right, rightOrder, IntoLeft, heap);
      return left;
    } else {
      right.Merge(op, left, leftOrder, IntoRight, heap);
      return right;
    }
  }

  /** No map counts as the empty map. */
  function ValueOf(m: StrandMap?): RMap
    reads m
  {
    if m == null then NO_VIEWS else m.Value()
  }

  const NO_VIEWS := RMap(map[], false)

  /** A missing map merges like an empty one: nothing changes. */
  lemma MissingMapIsEmpty<V(!new)>(op: (V, V) -> V, m: RMap, store: map<View, V>)
    ensures Merged(m, NO_VIEWS) == m && Destroyed(m, NO_VIEWS) == {} && MergedStore(op, m, NO_VIEWS, store, store)
    ensures !m.leftmost ==>
      Merged(NO_VIEWS, m) == m && Destroyed(NO_VIEWS, m) == {} && MergedStore(op, NO_VIEWS, m, store, store)
  {
    assert MergedViews(m, NO_VIEWS) == m.views;
    if !m.leftmost {
      assert MergedViews(NO_VIEWS, m) == m.views;
    }
  }
}
