/** Writing a pedigree into a buffer, loading a log entry from its text, and
    matching an entry against a chain. */
module ReplayLog {
  import opened PedigreeLog

  const NUL: char := '\0'

  /** Writes s and a terminator at p; yields the place of the terminator. */
  method Print(buf: array<char>, p: nat, s: string) returns (q: nat)
    requires p + |s| < buf.Length
    modifies buf
    ensures q == p + |s| && buf[..q] == old(buf[..p]) + s && buf[q] == NUL
  {
    for i := 0 to |s|
      invariant buf[..p + i] == old(buf[..p]) + s[..i]
    {
      buf[p + i] := s[i];
      assert s[..i + 1] == s[..i] + [s[i]];
    }
    q := p + |s|;
    buf[q] := NUL;
    assert s[..|s|] == s;
  }

  /** Writes the pedigree, from the root to this node. */
  method WalkPedigreeNodes(buf: array<char>, p: nat, node: Pedigree) returns (q: nat)
    requires node.Node? && p + |Text(node)| < buf.Length
    modifies buf
    ensures q == p + |Text(node)| && buf[..q] == old(buf[..p]) + Text(node) && buf[q] == NUL
    decreases node
  {
    q := p;
    if node.parent.Node? {
      q := WalkPedigreeNodes(buf, q, node.parent);
      q := Print(buf, q, "_");
    }
    q := Print(buf, q, Decimal(node.rank));
  }

  /** The text of a record's pedigree; the pedigree must fit the buffer. */
  method PedigreeText(node: Pedigree) returns (text: string)
    requires node.Node? ==> |Text(node)| < PEDIGREE_BUFF_SIZE
    ensures text == Written(node)
  {
    var pedigree := new char[PEDIGREE_BUFF_SIZE](_ => NUL);
    var q: nat;
    if node.NoNode? {
      q := Print(pedigree, 0, "0");
    } else {
      q := WalkPedigreeNodes(pedigree, 0, node);
    }
    text := pedigree[..q];
  }

  class ReplayEntry {
    var reversePedigree: array<uint64>
    var pedType: PedType
    var pedigreeLen: nat
    var value: int

    constructor ()
      ensures pedType == Unknown && pedigreeLen == reversePedigree.Length == 0
    {
      reversePedigree := new uint64[0];
      pedType, pedigreeLen, value := Unknown, 0, 0;
    }

    function Value(): Entry
      reads this, reversePedigree
    {
      Entry(reversePedigree[..], pedType, value)
    }

    /** Loads a record from the log; the terms must fit the buffer. */
    method Load(kind: string, text: string, value1: int) returns (ok: bool)
      requires |Terms(text)| <= PEDIGREE_BUFF_SIZE / 2
      modifies this
      ensures ok <==> TypeOf(kind) != Unknown
      ensures ok ==> fresh(reversePedigree) && pedigreeLen == reversePedigree.Length
      ensures ok ==> Value() == Loaded(kind, text, value1)
      ensures !ok ==> pedType == Unknown && value == -1 && reversePedigree == old(reversePedigree)
    {
      if kind == "Steal" {
        pedType := Steal;
        value := Cast16(value1);
      } else {
        value := -1;
        if kind == "Sync" {
          pedType := Sync;
        } else if kind == "Orphaned" {
          pedType := Orphaned;
        } else {
          pedType := Unknown;
          return false;
        }
      }
      var temp, len := ReadTerms(text);
      pedigreeLen := len;
      reversePedigree := new uint64[len](_ => 0);
      for n := 0 to len
        invariant temp[..len] == Terms(text)
        invariant reversePedigree.Length == len <= temp.Length
        invariant forall i | 0 <= i < n :: reversePedigree[i] == temp[len - 1 - i]
        invariant pedigreeLen == len && fresh(reversePedigree) && temp != reversePedigree
        invariant pedType == TypeOf(kind) && value == Loaded(kind, text, value1).value
      {
        reversePedigree[n] := temp[len - 1 - n];
      }
      assert forall i | 0 <= i < len :: temp[i] == Terms(text)[i];
      assert reversePedigree[..] == Reversed(Terms(text));
      return true;
    }

    /** Compares the chain, from the leaf to the root, with the recorded one. */
    method Match(t: PedType, node: Pedigree, victim: int) returns (r: bool)
      requires pedigreeLen == reversePedigree.Length
      ensures r <==> Matches(Value(), t, node, victim)
    {
      if t != pedType {
        return false;
      }
      if t.Steal? && victim != value {
        return false;
      }
      var i, at := 0, node;
      ghost var recorded, ranks := reversePedigree[..], Ranks(node);
      while at.Node? && i < pedigreeLen
        invariant i <= pedigreeLen
        invariant ranks == recorded[..i] + Ranks(at)
        decreases at
      {
        if at.rank != reversePedigree[i] {
          assert ranks[i] == at.rank && recorded[i] != at.rank;
          return false;
        }
        assert recorded[..i + 1] == recorded[..i] + [at.rank];
        Regroup(recorded[..i], at.rank, Ranks(at.parent));
        at := at.parent;
        i := i + 1;
      }
      assert |ranks| == i + |Ranks(at)|;
      assert i == pedigreeLen && at.NoNode? ==> ranks == recorded;
      return at.NoNode? && i == pedigreeLen;
    }
  }

  lemma Regroup(before: seq<uint64>, x: uint64, later: seq<uint64>)
    ensures before + ([x] + later) == (before + [x]) + later
  {
  }

  /** The numbers in the text, in a buffer of fixed size. */
  method ReadTerms(text: string) returns (temp: array<uint64>, len: nat)
    requires |Terms(text)| <= PEDIGREE_BUFF_SIZE / 2
    ensures fresh(temp) && len <= temp.Length && temp[..len] == Terms(text)
  {
    ghost var all := Terms(text);
    temp := new uint64[PEDIGREE_BUFF_SIZE / 2](_ => 0);
    len := 0;
    var p, done := text, false;
    while !done
      invariant len <= temp.Length
      invariant done ==> temp[..len] == all
      invariant !done ==> all == temp[..len] + Terms(p)
      decreases if done then 0 else 1 + |p|
    {
      FirstTerm(p, temp[..len]);
      ghost var before, later := temp[..len], LaterTerms(p);
      var (v, end) := Strtol(p);
      temp[len] := Cast64(v);
      len := len + 1;
      assert temp[..len] == before + [Cast64(v)];
      if end == |p| {
        done := true;
        assert temp[..len] + later == temp[..len];
      } else {
        p := p[end + 1..];
      }
    }
  }
}
