/** An order-maintenance list: the nodes in list order, with "insert
    immediately after" as its only update and "precedes" as its only query.
    Labels and relabelling are not part of this model. */
module OrderList {

  /** Nodes are numbered in the order in which they were allocated; node 0 is the base. */
  type Node = nat

  function Allocated(n: nat): multiset<Node> {
    if n == 0 then multiset{} else Allocated(n - 1) + multiset{n - 1}
  }

  /** A list of length n > 0 holds each of the nodes 0 .. n-1 once. */
  ghost predicate IsOrder(s: seq<Node>) {
    |s| > 0 && multiset(s) == Allocated(|s|)
  }

  /** The place of a node in the list; the length of the list if it is not there. */
  function Position(s: seq<Node>, a: Node): (i: nat)
    ensures i <= |s|
    ensures i < |s| ==> s[i] == a
    ensures a in s <==> i < |s|
  {
    if |s| == 0 then 0
    else if s[0] == a then 0
    else 1 + Position(s[1..], a)
  }

  predicate Precedes(s: seq<Node>, a: Node, b: Node) {
    Position(s, a) < Position(s, b) < |s|
  }

  /** r sits immediately after c: no node separates them. */
  ghost predicate Adjacent(s: seq<Node>, c: Node, r: Node) {
    Position(s, r) == Position(s, c) + 1 < |s|
  }

  /** Every node of s is still there in t, in the same relative order. */
  ghost predicate Extends(s: seq<Node>, t: seq<Node>) {
    && |s| <= |t|
    && forall a: Node, b: Node | a < |s| && b < |s| :: Precedes(s, a, b) <==> Precedes(t, a, b)
  }

  /** s with node n inserted immediately after node base. */
  function Spliced(s: seq<Node>, base: Node, n: Node): seq<Node>
    requires base in s
  {
    if s[0] == base then [base, n] + s[1..] else [s[0]] + Spliced(s[1..], base, n)
  }

  /** Inserting allocates the next node. */
  function InsertAfter(s: seq<Node>, base: Node): seq<Node>
    requires IsOrder(s) && base < |s|
  {
    NodesAreThere(s, base);
    Spliced(s, base, |s|)
  }

  // ---------------------------------------------------------------- laws

  lemma {:induction false} AllocatedHolds(n: nat, a: Node)
    ensures Allocated(n)[a] == if a < n then 1 else 0
  {
    if n > 0 {
      AllocatedHolds(n - 1, a);
    }
  }

  lemma NodesAreThere(s: seq<Node>, a: Node)
    requires IsOrder(s)
    ensures a in s <==> a < |s|
    ensures Position(s, a) < |s| <==> a < |s|
  {
    AllocatedHolds(|s|, a);
    assert a in s <==> a in multiset(s);
  }

  /** Two nodes of a list are at different places. */
  lemma PositionsDiffer(s: seq<Node>, a: Node, b: Node)
    requires a in s && a != b
    ensures Position(s, a) != Position(s, b)
  {
  }

  lemma {:induction false} SplicedContents(s: seq<Node>, base: Node, n: Node)
    requires base in s
    ensures |Spliced(s, base, n)| == |s| + 1
    ensures multiset(Spliced(s, base, n)) == multiset(s) + multiset{n}
  {
    assert s == [s[0]] + s[1..];
    if s[0] != base {
      SplicedContents(s[1..], base, n);
    }
  }

  lemma {:induction false} SplicedPositions(s: seq<Node>, base: Node, n: Node, a: Node)
    requires base in s && n !in s && a in s
    ensures Position(Spliced(s, base, n), n) == Position(s, base) + 1
    ensures Position(Spliced(s, base, n), a) == Position(s, a) + if Position(s, a) <= Position(s, base) then 0 else 1
  {
    var t := Spliced(s, base, n);
    if s[0] == base {
      assert t[1..] == [n] + s[1..];
      assert t[1..][1..] == s[1..];
    } else {
      assert t[1..] == Spliced(s[1..], base, n);
      SplicedPositions(s[1..], base, n, if a in s[1..] then a else base);
    }
  }

  /** Where nodes are after one insertion. */
  lemma InsertAfterPositions(s: seq<Node>, base: Node, a: Node)
    requires IsOrder(s) && base < |s| && a < |s|
    ensures IsOrder(InsertAfter(s, base)) && |InsertAfter(s, base)| == |s| + 1
    ensures Position(InsertAfter(s, base), |s|) == Position(s, base) + 1
    ensures Position(InsertAfter(s, base), a) == Position(s, a) + if Position(s, a) <= Position(s, base) then 0 else 1
    ensures Position(s, a) < |s| && Position(s, base) < |s|
    ensures a != base ==> Position(s, a) != Position(s, base)
  {
    NodesAreThere(s, base);
    NodesAreThere(s, a);
    NodesAreThere(s, |s|);
    SplicedContents(s, base, |s|);
    SplicedPositions(s, base, |s|, a);
    if a != base {
      PositionsDiffer(s, a, base);
    }
  }

  /** Everything there is to know about one insertion: old pairs keep their
      order and the new node takes the place just behind its base. */
  lemma InsertAfterOrder(s: seq<Node>, base: Node)
    requires IsOrder(s) && base < |s|
    ensures IsOrder(InsertAfter(s, base)) && |InsertAfter(s, base)| == |s| + 1
    ensures Extends(s, InsertAfter(s, base))
    ensures forall z: Node | z < |s| :: Precedes(InsertAfter(s, base), z, |s|) <==> z == base || Precedes(s, z, base)
    ensures forall z: Node | z < |s| :: Precedes(InsertAfter(s, base), |s|, z) <==> Precedes(s, base, z)
    ensures Adjacent(InsertAfter(s, base), base, |s|)
  {
    InsertAfterPositions(s, base, base);
    var t := InsertAfter(s, base);
    forall a: Node, b: Node | a < |s| && b < |s|
      ensures Precedes(s, a, b) <==> Precedes(t, a, b)
    {
      InsertAfterPositions(s, base, a);
      InsertAfterPositions(s, base, b);
    }
    forall z: Node | z < |s|
      ensures Precedes(t, z, |s|) <==> z == base || Precedes(s, z, base)
      ensures Precedes(t, |s|, z) <==> Precedes(s, base, z)
    {
      InsertAfterPositions(s, base, z);
    }
  }

  /** Two insertions in a row, the second behind the first. */
  function InsertTwo(s: seq<Node>, c: Node): (t: seq<Node>)
    requires IsOrder(s) && c < |s|
    ensures IsOrder(t) && |t| == |s| + 2
  {
    InsertAfterPositions(s, c, c);
    InsertAfterPositions(InsertAfter(s, c), |s|, c);
    InsertAfter(InsertAfter(s, c), |s|)
  }

  ghost predicate ShiftedAt(s: seq<Node>, t: seq<Node>, c: Node, a: Node) {
    && Position(s, a) < |s| && (a != c ==> Position(s, a) != Position(s, c))
    && Position(t, a) == Position(s, a) + if Position(s, a) <= Position(s, c) then 0 else 2
  }

  /** t is s with the nodes |s| and |s| + 1 just behind c, in this order. */
  ghost predicate TwoBehind(s: seq<Node>, t: seq<Node>, c: Node) {
    && IsOrder(t) && |t| == |s| + 2 && Position(s, c) < |s|
    && Position(t, |s|) == Position(s, c) + 1
    && Position(t, |s| + 1) == Position(s, c) + 2
    && forall a: Node | a < |s| :: ShiftedAt(s, t, c, a)
  }

  lemma InsertTwoIsTwoBehind(s: seq<Node>, c: Node)
    requires IsOrder(s) && c < |s|
    ensures TwoBehind(s, InsertTwo(s, c), c)
  {
    var t := InsertTwo(s, c);
    InsertAfterPositions(s, c, c);
    InsertAfterPositions(InsertAfter(s, c), |s|, c);
    InsertAfterPositions(InsertAfter(s, c), |s|, |s|);
    forall a: Node | a < |s| ensures ShiftedAt(s, t, c, a) {
      InsertAfterPositions(s, c, a);
      InsertAfterPositions(InsertAfter(s, c), |s|, a);
    }
  }

  lemma InsertTwoExtends(s: seq<Node>, c: Node)
    requires IsOrder(s) && c < |s|
    ensures Extends(s, InsertTwo(s, c))
  {
    InsertTwoIsTwoBehind(s, c);
    forall a: Node, b: Node | a < |s| && b < |s|
      ensures Precedes(s, a, b) <==> Precedes(InsertTwo(s, c), a, b)
    {
      assert ShiftedAt(s, InsertTwo(s, c), c, a) && ShiftedAt(s, InsertTwo(s, c), c, b);
    }
  }

  /** The list object: `nodes` is rewritten in place by every insertion. */
  class OmList {
    var nodes: seq<Node>

    ghost predicate Valid()
      reads this
    {
      IsOrder(nodes)
    }

    constructor ()
      ensures Valid() && nodes == [0]
    {
      nodes := [0];
      new;
      AllocatedHolds(1, 0);
      assert Allocated(1) == Allocated(0) + multiset{0};
    }

    method Insert(base: Node) returns (n: Node)
      requires Valid() && base < |nodes|
      modifies this
      ensures Valid()
      ensures n == |old(nodes)| && |nodes| == n + 1 && nodes == InsertAfter(old(nodes), base)
      ensures Adjacent(nodes, base, n) && Extends(old(nodes), nodes)
    {
      InsertAfterOrder(nodes, base);
      n := |nodes|;
      nodes := InsertAfter(nodes, base);
    }
  }
}
