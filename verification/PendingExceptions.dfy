/** Exceptions that wait for a sync. Every strand leaves a record, or none, and
    neighbours' records are merged in any order. */
module PendingExceptions {
  import opened Basics

  type Exc = nat

  const TWO_32: nat := 0x1_0000_0000

  type uint32 = x: nat | x < TWO_32 witness 0

  /** The exception being thrown, whether a caught one is being rethrown, the
      chain of caught ones, and the count of uncaught ones. */
  datatype Rec = Rec(active: Option<Exc>, rethrow: bool, caught: seq<Exc>, uncaught: uint32)

  const EMPTY: Rec := Rec(None, false, [], 0)

  /** No record counts as an empty one. */
  function ValueOf(r: Option<Rec>): Rec { if r.Some? then r.value else EMPTY }

  /** Unsigned arithmetic wraps around. */
  function Wrapped(x: int): uint32 { x % TWO_32 }

  function One(c: bool): int { if c then 1 else 0 }

  // ------------------------------------------------------------------- merging two

  /** What a merge asserts of the two records. */
  predicate MayMerge(l: Rec, r: Rec) {
    if l.caught != [] then r.caught == [] else !l.rethrow
  }

  function Joined(l: Rec, r: Rec): Rec {
    Rec(if l.active.None? then r.active else l.active,
        if l.caught != [] then l.rethrow else r.rethrow,
        if l.caught != [] then l.caught else r.caught,
        Wrapped(l.uncaught + r.uncaught - One(l.active.Some? && r.active.Some?)))
  }

  function Merged(l: Option<Rec>, r: Option<Rec>): Option<Rec> {
    if l.None? then r
    else if r.None? then l
    else if Joined(l.value, r.value) == EMPTY then None
    else Some(Joined(l.value, r.value))
  }

  /** The exceptions that a merge deletes. */
  function Losing(l: Option<Rec>, r: Option<Rec>): seq<Exc> {
    if l.Some? && r.Some? && l.value.active.Some? && r.value.active.Some? then [r.value.active.value] else []
  }

  // --------------------------------------------------------------- merging a whole tree

  /** The records of strands from left to right, and the order of merges. */
  datatype Tree = Leaf(rec: Option<Rec>) | Node(left: Tree, right: Tree)

  function Leaves(t: Tree): seq<Rec> {
    match t
    case Leaf(rec) => [ValueOf(rec)]
    case Node(l, r) => Leaves(l) + Leaves(r)
  }

  function Result(t: Tree): Option<Rec> {
    match t
    case Leaf(rec) => rec
    case Node(l, r) => Merged(Result(l), Result(r))
  }

  function Deleted(t: Tree): seq<Exc> {
    match t
    case Leaf(rec) => []
    case Node(l, r) => Deleted(l) + Deleted(r) + Losing(Result(l), Result(r))
  }

  /** No assertion of a merge fails. */
  predicate Merges(t: Tree) {
    match t
    case Leaf(_) => true
    case Node(l, r) => Merges(l) && Merges(r) && (Result(l).Some? && Result(r).Some? ==> MayMerge(Result(l).value, Result(r).value))
  }

  // -------------------------------------------------------------- what it should yield

  function Actives(s: seq<Rec>): seq<Exc> {
    if |s| == 0 then [] else Actives(s[..|s| - 1]) + if s[|s| - 1].active.Some? then [s[|s| - 1].active.value] else []
  }

  function Caught(s: seq<Rec>): seq<Exc> {
    if |s| == 0 then [] else Caught(s[..|s| - 1]) + s[|s| - 1].caught
  }

  function Uncaught(s: seq<Rec>): nat {
    if |s| == 0 then 0 else Uncaught(s[..|s| - 1]) + s[|s| - 1].uncaught
  }

  predicate Rethrows(s: seq<Rec>) { exists i | 0 <= i < |s| :: s[i].rethrow }

  /** The first active exception, the one caught chain, a rethrow if there is one,
      and all uncaught exceptions but the active ones that lose. */
  function Summary(s: seq<Rec>): Rec {
    var a := Actives(s);
    Rec(if a == [] then None else Some(a[0]), Rethrows(s), Caught(s),
        Wrapped(Net(s)))
  }

  /** A rethrown exception is the first of the caught chain, and of all strands
      only one has such a chain. */
  predicate LeavesOk(s: seq<Rec>) {
    && (forall i | 0 <= i < |s| :: s[i].rethrow ==> s[i].caught != [])
    && (forall i, j | 0 <= i < j < |s| :: s[i].caught == [] || s[j].caught == [])
  }

  lemma {:induction false} ActivesConcat(a: seq<Rec>, b: seq<Rec>)
    ensures Actives(a + b) == Actives(a) + Actives(b)
  {
    if |b| == 0 {
      assert a + b == a;
    } else {
      assert (a + b)[..|a + b| - 1] == a + b[..|b| - 1];
      ActivesConcat(a, b[..|b| - 1]);
    }
  }

  lemma {:induction false} CaughtConcat(a: seq<Rec>, b: seq<Rec>)
    ensures Caught(a + b) == Caught(a) + Caught(b)
  {
    if |b| == 0 {
      assert a + b == a;
    } else {
      assert (a + b)[..|a + b| - 1] == a + b[..|b| - 1];
      CaughtConcat(a, b[..|b| - 1]);
    }
  }

  lemma {:induction false} UncaughtConcat(a: seq<Rec>, b: seq<Rec>)
    ensures Uncaught(a + b) == Uncaught(a) + Uncaught(b)
  {
    if |b| == 0 {
      assert a + b == a;
    } else {
      assert (a + b)[..|a + b| - 1] == a + b[..|b| - 1];
      UncaughtConcat(a, b[..|b| - 1]);
    }
  }

  lemma RethrowsConcat(a: seq<Rec>, b: seq<Rec>)
    ensures Rethrows(a + b) <==> Rethrows(a) || Rethrows(b)
  {
    if Rethrows(a) {
      var i :| 0 <= i < |a| && a[i].rethrow;
      assert (a + b)[i].rethrow;
    }
    if Rethrows(b) {
      var i :| 0 <= i < |b| && b[i].rethrow;
      assert (a + b)[|a| + i].rethrow;
    }
  }

  lemma {:induction false} CaughtSomewhere(s: seq<Rec>) returns (i: nat)
    requires Caught(s) != []
    ensures i < |s| && s[i].caught != []
  {
    i := |s| - 1;
    if s[i].caught == [] {
      i := CaughtSomewhere(s[..|s| - 1]);
    }
  }

  lemma {:induction false} NoneCaught(s: seq<Rec>)
    requires Caught(s) == []
    ensures forall i | 0 <= i < |s| :: s[i].caught == []
  {
    if |s| > 0 {
      NoneCaught(s[..|s| - 1]);
    }
  }

  lemma NotBoth(a: seq<Rec>, b: seq<Rec>, i: nat, j: nat)
    requires LeavesOk(a + b) && i < |a| && j < |b|
    ensures a[i].caught == [] || b[j].caught == []
  {
    assert (a + b)[i] == a[i] && (a + b)[|a| + j] == b[j];
  }

  lemma WrappedSum(n: int, x: int, y: int, c: int)
    requires n == x + y - c
    ensures Wrapped(n) == Wrapped(Wrapped(x) + Wrapped(y) - c)
  {
    var p, q := x / TWO_32, y / TWO_32;
    var m := Wrapped(x) + Wrapped(y) - c;
    assert x == p * TWO_32 + Wrapped(x) && y == q * TWO_32 + Wrapped(y);
    assert n == (p + q) * TWO_32 + m;
  }

  /** The uncaught exceptions but the active ones that lose. */
  function Net(s: seq<Rec>): int { Uncaught(s) - if Actives(s) == [] then 0 else |Actives(s)| - 1 }

  lemma OneChain(a: seq<Rec>, b: seq<Rec>)
    requires LeavesOk(a + b)
    ensures LeavesOk(a) && LeavesOk(b) && (Caught(a) == [] || Caught(b) == [])
    ensures Caught(a) == [] ==> !Rethrows(a)
    ensures Caught(b) == [] ==> !Rethrows(b)
  {
    forall i | 0 <= i < |a| ensures a[i].rethrow ==> a[i].caught != [] {
      assert (a + b)[i] == a[i];
    }
    forall i | 0 <= i < |b| ensures b[i].rethrow ==> b[i].caught != [] {
      assert (a + b)[|a| + i] == b[i];
    }
    forall i, j | 0 <= i < j < |b| ensures b[i].caught == [] || b[j].caught == [] {
      assert (a + b)[|a| + i] == b[i] && (a + b)[|a| + j] == b[j];
    }
    forall i, j | 0 <= i < j < |a| ensures a[i].caught == [] || a[j].caught == [] {
      assert (a + b)[i] == a[i] && (a + b)[j] == a[j];
    }
    if Caught(a) == [] { NoneCaught(a); }
    if Caught(b) == [] { NoneCaught(b); }
    if Caught(a) != [] && Caught(b) != [] {
      var i := CaughtSomewhere(a);
      var j := CaughtSomewhere(b);
      NotBoth(a, b, i, j);
    }
  }

  lemma NetConcat(a: seq<Rec>, b: seq<Rec>)
    ensures Actives(a + b) == Actives(a) + Actives(b)
    ensures Net(a + b) == Net(a) + Net(b) - One(Actives(a) != [] && Actives(b) != [])
  {
    ActivesConcat(a, b);
    UncaughtConcat(a, b);
    assert Actives(a + b) == [] <==> Actives(a) == [] && Actives(b) == [];
  }

  lemma NetJoins(a: seq<Rec>, b: seq<Rec>)
    ensures Actives(a + b) == Actives(a) + Actives(b)
    ensures Wrapped(Net(a + b)) == Wrapped(Wrapped(Net(a)) + Wrapped(Net(b)) - One(Actives(a) != [] && Actives(b) != []))
  {
    NetConcat(a, b);
    WrappedSum(Net(a + b), Net(a), Net(b), One(Actives(a) != [] && Actives(b) != []));
  }

  /** The summary of two runs of strands is that of the summaries. */
  lemma SummaryJoins(a: seq<Rec>, b: seq<Rec>)
    requires LeavesOk(a + b)
    ensures LeavesOk(a) && LeavesOk(b) && MayMerge(Summary(a), Summary(b))
    ensures Summary(a + b) == Joined(Summary(a), Summary(b))
  {
    OneChain(a, b);
    CaughtConcat(a, b);
    RethrowsConcat(a, b);
    NetJoins(a, b);
    assert Caught(a) + [] == Caught(a) && [] + Caught(b) == Caught(b);
  }

  lemma SummaryOfOne(x: Rec)
    ensures Actives([x]) == (if x.active.Some? then [x.active.value] else []) && Summary([x]) == x
  {
    var s := [x];
    assert s[..0] == [];
    assert Rethrows(s) <==> s[0].rethrow;
    assert Caught(s) == Caught([]) + x.caught == x.caught;
    assert Actives(s) == Actives([]) + if x.active.Some? then [x.active.value] else [];
    assert Uncaught(s) == x.uncaught;
  }

  lemma EmptyIsNeutral(s: seq<Rec>)
    requires LeavesOk(s)
    ensures Joined(Summary(s), EMPTY) == Summary(s) && Joined(EMPTY, Summary(s)) == Summary(s)
  {
    if Caught(s) == [] { NoneCaught(s); }
  }

  /** Merging in any order passes every assertion and yields the summary of the
      strands from left to right. */
  lemma {:induction false} MergeIsDeterministic(t: Tree)
    requires LeavesOk(Leaves(t))
    ensures Merges(t) && ValueOf(Result(t)) == Summary(Leaves(t))
  {
    match t
    case Leaf(rec) => SummaryOfOne(ValueOf(rec));
    case Node(l, r) =>
      SummaryJoins(Leaves(l), Leaves(r));
      MergeIsDeterministic(l);
      MergeIsDeterministic(r);
      EmptyIsNeutral(Leaves(l));
      EmptyIsNeutral(Leaves(r));
  }

  /** No strand leaves a record in which nothing is pending. */
  predicate NoEmptyLeaf(t: Tree) {
    match t
    case Leaf(rec) => rec != Some(EMPTY)
    case Node(l, r) => NoEmptyLeaf(l) && NoEmptyLeaf(r)
  }

  /** Two records leave one exactly if something is still pending in them. */
  lemma MissingIffNothingPending(l: Rec, r: Rec)
    requires MayMerge(l, r)
    ensures Merged(Some(l), Some(r)).None?
       <==> l.active.None? && r.active.None? && l.caught == [] && r.caught == [] && !r.rethrow && (l.uncaught + r.uncaught) % TWO_32 == 0
  {
    assert l.caught == [] ==> Joined(l, r).caught == r.caught && Joined(l, r).rethrow == r.rethrow;
    assert l.active.None? ==> Joined(l, r).active == r.active;
  }

  /** A record is left after all merges only if something is still pending, but for one
      that was empty from the start and has never met another. */
  lemma KeptIffPending(t: Tree)
    requires LeavesOk(Leaves(t))
    ensures Result(t).None? ==> Summary(Leaves(t)) == EMPTY
    ensures NoEmptyLeaf(t) && Summary(Leaves(t)) == EMPTY ==> Result(t).None?
  {
    MergeIsDeterministic(t);
    if NoEmptyLeaf(t) { NothingEmptyIsKept(t); }
  }

  lemma {:induction false} NothingEmptyIsKept(t: Tree)
    requires NoEmptyLeaf(t)
    ensures Result(t) != Some(EMPTY)
  {
    if t.Node? {
      NothingEmptyIsKept(t.left);
      NothingEmptyIsKept(t.right);
    }
  }

  /** The exceptions that lose are deleted once each, all but the first active. */
  lemma {:induction false} LosersAreDeletedOnce(t: Tree)
    requires LeavesOk(Leaves(t))
    ensures multiset(Deleted(t)) == Losers(Actives(Leaves(t)))
  {
    match t
    case Leaf(rec) => SummaryOfOne(ValueOf(rec));
    case Node(l, r) =>
      SummaryJoins(Leaves(l), Leaves(r));
      ActivesConcat(Leaves(l), Leaves(r));
      MergeIsDeterministic(l);
      MergeIsDeterministic(r);
      LosersAreDeletedOnce(l);
      LosersAreDeletedOnce(r);
      LosersOfBoth(Actives(Leaves(l)), Actives(Leaves(r)));
      LosingIsSecond(l, r);
  }

  lemma LosingIsSecond(l: Tree, r: Tree)
    requires ValueOf(Result(l)) == Summary(Leaves(l)) && ValueOf(Result(r)) == Summary(Leaves(r))
    ensures var x, y := Actives(Leaves(l)), Actives(Leaves(r));
            Losing(Result(l), Result(r)) == if x != [] && y != [] then [y[0]] else []
  {
  }

  function Losers(a: seq<Exc>): multiset<Exc> { if a == [] then multiset{} else multiset(a[1..]) }

  lemma LosersOfBoth(x: seq<Exc>, y: seq<Exc>)
    ensures Losers(x + y) == Losers(x) + Losers(y) + if x != [] && y != [] then multiset{y[0]} else multiset{}
  {
    if x == [] {
      assert x + y == y;
    } else if y == [] {
      assert x + y == x;
    } else {
      assert (x + y)[1..] == x[1..] + y;
      assert y == [y[0]] + y[1..];
    }
  }

  // ----------------------------------------------------- what the documentation says

  /** What a strand throws: nothing, an exception not yet known, or an active one. */
  datatype Throw = Nil | Unresolved | Active(exc: Exc)

  function ThrowOf(r: Rec): Throw {
    if r.active.Some? then Active(r.active.value) else if r.rethrow then Unresolved else Nil
  }

  /** The merged exception is the left one unless it is nil; this holds if and only
      if the left one is no unresolved exception beside an active right one. */
  lemma FirstThrowWinsIff(l: Rec, r: Rec)
    requires MayMerge(l, r) && (l.rethrow ==> l.caught != []) && (r.rethrow ==> r.caught != [])
    ensures ThrowOf(Joined(l, r)) == (if ThrowOf(l) != Nil then ThrowOf(l) else ThrowOf(r))
       <==> !(ThrowOf(l) == Unresolved && r.active.Some?)
  {
  }

  /** The debug check of a record: seen as a signed number, the count is positive
      beside an active exception. */
  predicate CheckOk(r: Rec) { r.active.Some? ==> 0 < r.uncaught < TWO_32 / 2 }

  /** The checks before and after every merge. */
  predicate ChecksPass(t: Tree) {
    CheckOk(ValueOf(Result(t))) && (t.Node? ==> ChecksPass(t.left) && ChecksPass(t.right))
  }

  lemma {:induction false} ActivesAreCounted(s: seq<Rec>)
    requires forall i | 0 <= i < |s| :: CheckOk(s[i])
    ensures |Actives(s)| <= Uncaught(s)
  {
    if |s| > 0 { ActivesAreCounted(s[..|s| - 1]); }
  }

  lemma ResultIsChecked(t: Tree)
    requires LeavesOk(Leaves(t)) && Uncaught(Leaves(t)) < TWO_32 / 2
    requires forall i | 0 <= i < |Leaves(t)| :: CheckOk(Leaves(t)[i])
    ensures CheckOk(ValueOf(Result(t)))
  {
    var s := Leaves(t);
    MergeIsDeterministic(t);
    ActivesAreCounted(s);
    assert 0 <= Net(s) <= Uncaught(s) && (Actives(s) != [] ==> Net(s) > 0);
    WrappedIsSame(Net(s));
  }

  lemma PartsAreChecked(a: seq<Rec>, b: seq<Rec>)
    requires LeavesOk(a + b) && Uncaught(a + b) < TWO_32 / 2
    requires forall i | 0 <= i < |a + b| :: CheckOk((a + b)[i])
    ensures LeavesOk(a) && Uncaught(a) < TWO_32 / 2 && forall i | 0 <= i < |a| :: CheckOk(a[i])
    ensures LeavesOk(b) && Uncaught(b) < TWO_32 / 2 && forall i | 0 <= i < |b| :: CheckOk(b[i])
  {
    OneChain(a, b);
    UncaughtConcat(a, b);
    assert forall i | 0 <= i < |a| :: a[i] == (a + b)[i];
    assert forall i | 0 <= i < |b| :: b[i] == (a + b)[|a| + i];
  }

  /** Merging in any order passes the debug checks as well, if they hold at first
      and the counts together stay in the range of signed numbers. */
  lemma {:induction false} ChecksPassThroughout(t: Tree)
    requires LeavesOk(Leaves(t)) && Uncaught(Leaves(t)) < TWO_32 / 2
    requires forall i | 0 <= i < |Leaves(t)| :: CheckOk(Leaves(t)[i])
    ensures ChecksPass(t)
  {
    ResultIsChecked(t);
    if t.Node? {
      PartsAreChecked(Leaves(t.left), Leaves(t.right));
      ChecksPassThroughout(t.left);
      ChecksPassThroughout(t.right);
    }
  }

  lemma WrappedIsSame(n: int)
    requires 0 <= n < TWO_32
    ensures Wrapped(n) == n
  {
  }

  // ------------------------------------------------------------- the records in memory

  /** What the unwinder deleted and which records were freed, in order. */
  class Releases {
    var deleted: seq<Exc>
    var freed: seq<PendingExceptionInfo>

    constructor ()
      ensures deleted == [] && freed == []
    {
      deleted, freed := [], [];
    }
  }

  class PendingExceptionInfo {
    var active: Option<Exc>
    var rethrow: bool
    var caughtExceptions: seq<Exc>
    var uncaughtExceptions: uint32

    constructor (active: Option<Exc>, rethrow: bool, caught: seq<Exc>, uncaught: uint32)
      ensures Value() == Rec(active, rethrow, caught, uncaught)
    {
      this.active, this.rethrow := active, rethrow;
      caughtExceptions, uncaughtExceptions := caught, uncaught;
    }

    function Value(): Rec
      reads this
    {
      Rec(active, rethrow, caughtExceptions, uncaughtExceptions)
    }

    predicate IsEmpty()
      reads this
    {
      active.None? && !rethrow && caughtExceptions == [] && uncaughtExceptions == 0
    }

    /** Deletes the active exception and the whole caught chain. */
    method Destruct(log: Releases)
      modifies this, log`deleted
      ensures Value() == old(Value()).(active := None, caught := [])
      ensures log.deleted == old(log.deleted) + (if old(active).Some? then [old(active).value] else []) + old(caughtExceptions)
    {
      if active.Some? {
        log.deleted := log.deleted + [active.value];
        active := None;
      }
      ghost var before := log.deleted;
      while caughtExceptions != []
        invariant active == None && rethrow == old(rethrow) && uncaughtExceptions == old(uncaughtExceptions)
        invariant log.deleted + caughtExceptions == before + old(caughtExceptions)
        decreases |caughtExceptions|
      {
        var exc := caughtExceptions[0];
        caughtExceptions := caughtExceptions[1..];
        log.deleted := log.deleted + [exc];
      }
      assert log.deleted + caughtExceptions == log.deleted;
    }
  }

  function RecOf(info: PendingExceptionInfo?): Option<Rec>
    reads info
  {
    if info == null then None else Some(info.Value())
  }

  /** Merges the right record into the left one, which is logically earlier. */
  method MergePendingExceptions(left: PendingExceptionInfo?, right: PendingExceptionInfo?, log: Releases)
    returns (result: PendingExceptionInfo?)
    requires left != null && right != null ==> left != right && MayMerge(left.Value(), right.Value())
    modifies left, right, log
    ensures RecOf(result) == Merged(old(RecOf(left)), old(RecOf(right)))
    ensures log.deleted == old(log.deleted) + Losing(old(RecOf(left)), old(RecOf(right)))
    ensures left == null || right == null ==> result == (if left == null then right else left) && log.freed == old(log.freed)
    ensures left != null && right != null ==>
      log.freed == old(log.freed) + [right] + (if result == null then [left] else []) && (result != null ==> result == left)
  {
    if left == null {
      return right;
    }
    if right == null {
      return left;
    }
    if left.caughtExceptions == [] {
      left.rethrow := right.rethrow;
      left.caughtExceptions := right.caughtExceptions;
      right.caughtExceptions := [];
    }
    var rightUncaught := right.uncaughtExceptions;
    if left.active.None? {
      left.active := right.active;
      right.active := None;
      left.uncaughtExceptions := Wrapped(left.uncaughtExceptions + rightUncaught);
    } else {
      left.uncaughtExceptions := Wrapped(left.uncaughtExceptions + rightUncaught - if right.active.Some? then 1 else 0);
    }
    assert left.Value() == Joined(old(left.Value()), old(right.Value()));
    right.Destruct(log);
    log.freed := log.freed + [right];
    if left.IsEmpty() {
      left.Destruct(log);
      log.freed := log.freed + [left];
      return null;
    }
    return left;
  }
}
