/** The access history of a memory word: two readers and the last writer. Every
    access is one atomic step; strands are compared by their places in the
    down-first (english) and the right-first (hebrew) list. */
module AccessHistory {
  import opened Basics
  import opened OrderList

  datatype MemAccess = MemAccess(estrand: Node, hstrand: Node, rip: int)

  datatype Lists = Lists(english: seq<Node>, hebrew: seq<Node>)

  datatype Slot = Slot(lreader: Option<MemAccess>, rreader: Option<MemAccess>, writer: Option<MemAccess>)

  const FRESH := Slot(None, None, None)

  /** The strands are ordered differently in the two lists. */
  predicate RacesWith(o: Lists, a: MemAccess, curr: MemAccess) {
    Precedes(o.english, a.estrand, curr.estrand) == !Precedes(o.hebrew, a.hstrand, curr.hstrand)
  }

  predicate SomeRaces(o: Lists, a: Option<MemAccess>, curr: MemAccess) {
    a.Some? && RacesWith(o, a.value, curr)
  }

  predicate IsLeftmost(o: Lists, reader: MemAccess, curr: MemAccess) {
    Precedes(o.english, curr.estrand, reader.estrand) || Precedes(o.hebrew, reader.hstrand, curr.hstrand)
  }

  predicate IsRightmost(o: Lists, reader: MemAccess, curr: MemAccess) {
    Precedes(o.english, reader.estrand, curr.estrand)
  }

  predicate ReadRaces(o: Lists, s: Slot, curr: MemAccess) {
    SomeRaces(o, s.writer, curr)
  }

  predicate WriteRaces(o: Lists, s: Slot, curr: MemAccess) {
    SomeRaces(o, s.writer, curr) || SomeRaces(o, s.lreader, curr) || SomeRaces(o, s.rreader, curr)
  }

  function ReadSlot(o: Lists, s: Slot, curr: MemAccess): Slot {
    Slot(if s.lreader.None? || IsLeftmost(o, s.lreader.value, curr) then Some(curr) else s.lreader,
         if s.rreader.None? || IsRightmost(o, s.rreader.value, curr) then Some(curr) else s.rreader,
         s.writer)
  }

  function WriteSlot(s: Slot, curr: MemAccess): Slot {
    s.(writer := Some(curr))
  }

  /** What the first access to a word leaves behind. */
  function First(curr: MemAccess, isRead: bool): Slot {
    if isRead then Slot(Some(curr), Some(curr), None) else Slot(None, None, Some(curr))
  }

  // --------------------------------------------------------- traces of one word

  datatype Access = Access(acc: MemAccess, isRead: bool)

  function Apply(o: Lists, s: Slot, a: Access): Slot {
    if a.isRead then ReadSlot(o, s, a.acc) else WriteSlot(s, a.acc)
  }

  predicate Flags(o: Lists, s: Slot, a: Access) {
    if a.isRead then ReadRaces(o, s, a.acc) else WriteRaces(o, s, a.acc)
  }

  function Replay(o: Lists, tr: seq<Access>): Slot {
    if |tr| == 0 then FRESH else Apply(o, Replay(o, tr[..|tr| - 1]), tr[|tr| - 1])
  }

  predicate FlaggedAt(o: Lists, tr: seq<Access>, j: nat)
    requires j < |tr|
  {
    Flags(o, Replay(o, tr[..j]), tr[j])
  }

  predicate Conflict(a: Access, b: Access) {
    !a.isRead || !b.isRead
  }

  predicate RacingPair(o: Lists, tr: seq<Access>, i: nat, j: nat)
    requires i < j < |tr|
  {
    Conflict(tr[i], tr[j]) && RacesWith(o, tr[i].acc, tr[j].acc)
  }

  predicate Listed(o: Lists, a: MemAccess) {
    a.estrand in o.english && a.hstrand in o.hebrew
  }

  /** b's strand does not come before a's: a may happen before b. */
  predicate NotBefore(o: Lists, b: MemAccess, a: MemAccess) {
    !(Precedes(o.english, b.estrand, a.estrand) && Precedes(o.hebrew, b.hstrand, a.hstrand))
  }

  /** Two strands share a node in one list only if they share it in the other. */
  predicate SameInBoth(a: MemAccess, b: MemAccess) {
    a.estrand == b.estrand <==> a.hstrand == b.hstrand
  }

  predicate MayPrecede(o: Lists, tr: seq<Access>, i: nat, j: nat)
    requires i < |tr| && j < |tr|
  {
    SameInBoth(tr[i].acc, tr[j].acc) && (i < j ==> NotBefore(o, tr[j].acc, tr[i].acc))
  }

  /** The accesses happen in an order that the dag allows. */
  ghost predicate DagConsistent(o: Lists, tr: seq<Access>) {
    && (forall i | 0 <= i < |tr| :: Listed(o, tr[i].acc))
    && (forall i: nat, j: nat | i < |tr| && j < |tr| :: MayPrecede(o, tr, i, j))
  }

  // ------------------------------------------------------------ the strand order

  /** a is b or comes before it in both lists. */
  predicate AtOrBefore(o: Lists, a: MemAccess, b: MemAccess) {
    && Position(o.english, a.estrand) <= Position(o.english, b.estrand)
    && Position(o.hebrew, a.hstrand) <= Position(o.hebrew, b.hstrand)
  }

  predicate RightFirstUpTo(o: Lists, a: MemAccess, b: MemAccess) {
    Position(o.hebrew, a.hstrand) <= Position(o.hebrew, b.hstrand)
  }

  predicate DownFirstUpTo(o: Lists, a: MemAccess, b: MemAccess) {
    Position(o.english, a.estrand) <= Position(o.english, b.estrand)
  }

  /** Of two strands where the second may follow the first: no race means ordered. */
  lemma NoRaceMeansOrdered(o: Lists, a: MemAccess, b: MemAccess)
    requires Listed(o, a) && Listed(o, b) && SameInBoth(a, b) && NotBefore(o, b, a)
    ensures RacesWith(o, a, b) <==> !AtOrBefore(o, a, b)
  {
    if a.estrand != b.estrand {
      PositionsDiffer(o.english, a.estrand, b.estrand);
      PositionsDiffer(o.hebrew, a.hstrand, b.hstrand);
    }
  }

  ghost predicate OneOf(tr: seq<Access>, a: Option<MemAccess>, isRead: bool) {
    a.Some? ==> exists i | 0 <= i < |tr| :: tr[i] == Access(a.value, isRead)
  }

  /** What the history holds: the last writer, and of all readers the last in
      either list. */
  ghost predicate HistoryInv(o: Lists, tr: seq<Access>, s: Slot) {
    && OneOf(tr, s.lreader, true) && OneOf(tr, s.rreader, true) && OneOf(tr, s.writer, false)
    && (forall i | 0 <= i < |tr| && tr[i].isRead :: s.lreader.Some? && RightFirstUpTo(o, tr[i].acc, s.lreader.value))
    && (forall i | 0 <= i < |tr| && tr[i].isRead :: s.rreader.Some? && DownFirstUpTo(o, tr[i].acc, s.rreader.value))
    && (forall i | 0 <= i < |tr| && !tr[i].isRead :: s.writer.Some?)
  }

  /** An access found in the history may precede the one being checked. */
  lemma HeldMayPrecede(o: Lists, tr: seq<Access>, n: nat, a: Option<MemAccess>, isRead: bool)
    returns (i: nat)
    requires DagConsistent(o, tr) && n < |tr| && a.Some? && OneOf(tr[..n], a, isRead)
    ensures i < n && tr[i] == Access(a.value, isRead)
    ensures Listed(o, a.value) && SameInBoth(a.value, tr[n].acc) && NotBefore(o, tr[n].acc, a.value)
  {
    var k :| 0 <= k < n && tr[..n][k] == Access(a.value, isRead);
    i := k;
    assert MayPrecede(o, tr, i, n);
  }

  /** A kept left reader stays last in the right-first list: an earlier reader
      is never below the new one in both lists. */
  lemma LeftReaderStep(o: Lists, tr: seq<Access>, n: nat, s: Slot)
    requires DagConsistent(o, tr) && n < |tr| && tr[n].isRead && HistoryInv(o, tr[..n], s)
    ensures s.lreader.Some? && !IsLeftmost(o, s.lreader.value, tr[n].acc) ==> RightFirstUpTo(o, tr[n].acc, s.lreader.value)
    ensures s.lreader.Some? && IsLeftmost(o, s.lreader.value, tr[n].acc) ==> RightFirstUpTo(o, s.lreader.value, tr[n].acc)
  {
    if s.lreader.Some? {
      var i := HeldMayPrecede(o, tr, n, s.lreader, true);
      var l, c := s.lreader.value, tr[n].acc;
      if l.hstrand != c.hstrand {
        PositionsDiffer(o.hebrew, l.hstrand, c.hstrand);
      }
    }
  }

  lemma OneOfMore(tr: seq<Access>, n: nat, a: Option<MemAccess>, isRead: bool)
    requires n < |tr|
    requires OneOf(tr[..n], a, isRead) || (tr[n].isRead == isRead && a == Some(tr[n].acc))
    ensures OneOf(tr[..n + 1], a, isRead)
  {
    if a.Some? {
      if OneOf(tr[..n], a, isRead) {
        var k :| 0 <= k < n && tr[..n][k] == Access(a.value, isRead);
        assert tr[..n + 1][k] == Access(a.value, isRead);
      } else {
        assert tr[..n + 1][n] == Access(a.value, isRead);
      }
    }
  }

  lemma {:induction false} HistoryHolds(o: Lists, tr: seq<Access>, n: nat)
    requires DagConsistent(o, tr) && n <= |tr|
    ensures HistoryInv(o, tr[..n], Replay(o, tr[..n]))
  {
    if n > 0 {
      HistoryHolds(o, tr, n - 1);
      var pre, s := tr[..n - 1], Replay(o, tr[..n - 1]);
      assert tr[..n][..n - 1] == pre && tr[..n][n - 1] == tr[n - 1];
      var s' := Replay(o, tr[..n]);
      if tr[n - 1].isRead {
        LeftReaderStep(o, tr, n - 1, s);
      }
      OneOfMore(tr, n - 1, s'.lreader, true);
      OneOfMore(tr, n - 1, s'.rreader, true);
      OneOfMore(tr, n - 1, s'.writer, false);
      forall i | 0 <= i < n && tr[..n][i].isRead
        ensures s'.lreader.Some? && RightFirstUpTo(o, tr[..n][i].acc, s'.lreader.value)
        ensures s'.rreader.Some? && DownFirstUpTo(o, tr[..n][i].acc, s'.rreader.value)
      {
        if i < n - 1 { assert tr[..n][i] == pre[i]; }
      }
      forall i | 0 <= i < n && !tr[..n][i].isRead ensures s'.writer.Some? {
        if i < n - 1 { assert tr[..n][i] == pre[i]; }
      }
    }
  }

  // --------------------------------------------------------------- exactness

  lemma FlagFindsPair(o: Lists, tr: seq<Access>, n: nat, a: Option<MemAccess>, isRead: bool)
    requires DagConsistent(o, tr) && n < |tr| && OneOf(tr[..n], a, isRead)
    requires SomeRaces(o, a, tr[n].acc) && (!isRead || !tr[n].isRead)
    ensures exists i: nat | i < n :: RacingPair(o, tr, i, n)
  {
    var i := HeldMayPrecede(o, tr, n, a, isRead);
    assert RacingPair(o, tr, i, n);
  }

  /** What is flagged is a race: it is parallel to an earlier conflicting access. */
  lemma FlaggedIsRace(o: Lists, tr: seq<Access>, n: nat)
    requires DagConsistent(o, tr) && n < |tr| && FlaggedAt(o, tr, n)
    ensures exists i: nat | i < n :: RacingPair(o, tr, i, n)
  {
    HistoryHolds(o, tr, n);
    var s := Replay(o, tr[..n]);
    if SomeRaces(o, s.writer, tr[n].acc) {
      FlagFindsPair(o, tr, n, s.writer, false);
    } else if SomeRaces(o, s.lreader, tr[n].acc) {
      FlagFindsPair(o, tr, n, s.lreader, true);
    } else {
      FlagFindsPair(o, tr, n, s.rreader, true);
    }
  }

  ghost predicate NothingFlagged(o: Lists, tr: seq<Access>, n: nat)
    requires n <= |tr|
  {
    forall j: nat | j < n :: !FlaggedAt(o, tr, j)
  }

  /** While nothing is flagged the last writer follows every earlier writer. */
  lemma {:induction false} LastWriterFollowsAll(o: Lists, tr: seq<Access>, n: nat, i: nat)
    requires DagConsistent(o, tr) && n <= |tr| && NothingFlagged(o, tr, n)
    requires i < n && !tr[i].isRead
    ensures Replay(o, tr[..n]).writer.Some? && AtOrBefore(o, tr[i].acc, Replay(o, tr[..n]).writer.value)
    decreases n
  {
    assert tr[..n][..n - 1] == tr[..n - 1];
    if i < n - 1 {
      LastWriterFollowsAll(o, tr, n - 1, i);
      if !tr[n - 1].isRead {
        HistoryHolds(o, tr, n - 1);
        var s := Replay(o, tr[..n - 1]);
        var k := HeldMayPrecede(o, tr, n - 1, s.writer, false);
        assert !FlaggedAt(o, tr, n - 1);
        NoRaceMeansOrdered(o, s.writer.value, tr[n - 1].acc);
      }
    }
  }

  /** An access that is not flagged follows every earlier conflicting access. */
  lemma UnflaggedFollows(o: Lists, tr: seq<Access>, n: nat, i: nat)
    requires DagConsistent(o, tr) && n < |tr| && NothingFlagged(o, tr, n) && !FlaggedAt(o, tr, n)
    requires i < n && Conflict(tr[i], tr[n])
    ensures AtOrBefore(o, tr[i].acc, tr[n].acc)
  {
    HistoryHolds(o, tr, n);
    var s := Replay(o, tr[..n]);
    assert tr[..n][i] == tr[i];
    if !tr[i].isRead {
      LastWriterFollowsAll(o, tr, n, i);
      var k := HeldMayPrecede(o, tr, n, s.writer, false);
      NoRaceMeansOrdered(o, s.writer.value, tr[n].acc);
    } else {
      var l := HeldMayPrecede(o, tr, n, s.lreader, true);
      var r := HeldMayPrecede(o, tr, n, s.rreader, true);
      NoRaceMeansOrdered(o, s.lreader.value, tr[n].acc);
      NoRaceMeansOrdered(o, s.rreader.value, tr[n].acc);
    }
  }

  lemma {:induction false} UnflaggedHasNoPair(o: Lists, tr: seq<Access>, i: nat, j: nat)
    requires DagConsistent(o, tr) && NothingFlagged(o, tr, |tr|) && i < j < |tr|
    ensures !RacingPair(o, tr, i, j)
  {
    if Conflict(tr[i], tr[j]) {
      UnflaggedFollows(o, tr, j, i);
      assert MayPrecede(o, tr, i, j);
      NoRaceMeansOrdered(o, tr[i].acc, tr[j].acc);
    }
  }

  /** Two readers and one writer are enough: for every order of accesses that
      the dag allows, some access is flagged exactly if two parallel strands
      accessed the word and one of them wrote. */
  lemma DetectionIsExact(o: Lists, tr: seq<Access>)
    requires DagConsistent(o, tr)
    ensures (exists j: nat | j < |tr| :: FlaggedAt(o, tr, j))
       <==> (exists i: nat, j: nat | i < j < |tr| :: RacingPair(o, tr, i, j))
  {
    if j: nat :| j < |tr| && FlaggedAt(o, tr, j) {
      FlaggedIsRace(o, tr, j);
    } else {
      forall i: nat, j: nat | i < j < |tr| ensures !RacingPair(o, tr, i, j) {
        UnflaggedHasNoPair(o, tr, i, j);
      }
    }
  }

  // ------------------------------------------------------------- growing lists

  ghost predicate ListsExtend(o: Lists, o': Lists) {
    && IsOrder(o.english) && IsOrder(o'.english) && Extends(o.english, o'.english)
    && IsOrder(o.hebrew) && IsOrder(o'.hebrew) && Extends(o.hebrew, o'.hebrew)
  }

  predicate Allocates(o: Lists, a: MemAccess) {
    a.estrand < |o.english| && a.hstrand < |o.hebrew|
  }

  predicate SlotAllocated(o: Lists, s: Slot) {
    && (s.lreader.Some? ==> Allocates(o, s.lreader.value))
    && (s.rreader.Some? ==> Allocates(o, s.rreader.value))
    && (s.writer.Some? ==> Allocates(o, s.writer.value))
  }

  lemma VerdictsAreStable(o: Lists, o': Lists, a: MemAccess, b: MemAccess)
    requires ListsExtend(o, o') && Allocates(o, a) && Allocates(o, b)
    ensures RacesWith(o', a, b) == RacesWith(o, a, b)
    ensures IsLeftmost(o', a, b) == IsLeftmost(o, a, b)
    ensures IsRightmost(o', a, b) == IsRightmost(o, a, b)
  {
  }

  lemma AccessIsStable(o: Lists, o': Lists, s: Slot, a: Access)
    requires ListsExtend(o, o') && SlotAllocated(o, s) && Allocates(o, a.acc)
    ensures Apply(o', s, a) == Apply(o, s, a) && (Flags(o', s, a) <==> Flags(o, s, a))
  {
    if s.lreader.Some? { VerdictsAreStable(o, o', s.lreader.value, a.acc); }
    if s.rreader.Some? { VerdictsAreStable(o, o', s.rreader.value, a.acc); }
    if s.writer.Some? { VerdictsAreStable(o, o', s.writer.value, a.acc); }
  }

  lemma {:induction false} ReplayKeepsAllocated(o: Lists, tr: seq<Access>)
    requires forall i | 0 <= i < |tr| :: Allocates(o, tr[i].acc)
    ensures SlotAllocated(o, Replay(o, tr))
  {
    if |tr| > 0 {
      ReplayKeepsAllocated(o, tr[..|tr| - 1]);
    }
  }

  /** Nodes inserted later change neither the history nor any verdict on it. */
  lemma {:induction false} HistoryIsStable(o: Lists, o': Lists, tr: seq<Access>)
    requires ListsExtend(o, o') && forall i | 0 <= i < |tr| :: Allocates(o, tr[i].acc)
    ensures Replay(o', tr) == Replay(o, tr)
    ensures |tr| > 0 ==> (FlaggedAt(o', tr, |tr| - 1) <==> FlaggedAt(o, tr, |tr| - 1))
  {
    if |tr| > 0 {
      HistoryIsStable(o, o', tr[..|tr| - 1]);
      ReplayKeepsAllocated(o, tr[..|tr| - 1]);
      AccessIsStable(o, o', Replay(o, tr[..|tr| - 1]), tr[|tr| - 1]);
    }
  }

  // --------------------------------------------------------- words of a block

  ghost predicate SomeFlagged(o: Lists, tr: seq<Access>) {
    exists j: nat | j < |tr| :: FlaggedAt(o, tr, j)
  }

  lemma NothingChangesLater(o: Lists, o': Lists, tr: seq<Access>)
    requires ListsExtend(o, o') && forall i | 0 <= i < |tr| :: Allocates(o, tr[i].acc)
    ensures Replay(o', tr) == Replay(o, tr) && (SomeFlagged(o', tr) <==> SomeFlagged(o, tr))
  {
    HistoryIsStable(o, o', tr);
    forall j: nat | j < |tr| ensures FlaggedAt(o', tr, j) <==> FlaggedAt(o, tr, j) {
      HistoryIsStable(o, o', tr[..j + 1]);
      assert tr[..j + 1][..j] == tr[..j];
    }
  }

  lemma OneMoreAccess(o: Lists, tr: seq<Access>, a: Access)
    ensures Replay(o, tr + [a]) == Apply(o, Replay(o, tr), a)
    ensures SomeFlagged(o, tr + [a]) <==> SomeFlagged(o, tr) || Flags(o, Replay(o, tr), a)
  {
    var n, tr' := |tr|, tr + [a];
    assert tr'[..n] == tr;
    forall j: nat | j < n ensures FlaggedAt(o, tr', j) <==> FlaggedAt(o, tr, j) {
      assert tr'[..j] == tr[..j];
    }
    if SomeFlagged(o, tr) {
      var j: nat :| j < n && FlaggedAt(o, tr, j);
      assert FlaggedAt(o, tr', j);
    }
    if Flags(o, Replay(o, tr), a) {
      assert FlaggedAt(o, tr', n);
    }
  }

  /** Making a history for the first access is checking it against an empty one. */
  lemma FirstIsAnUpdate(o: Lists, a: Access)
    ensures Apply(o, FRESH, a) == First(a.acc, a.isRead) && !Flags(o, FRESH, a)
  {
  }

  const GRAIN_SIZE: nat := 4
  const MAX_GRAIN_SIZE: nat := 16
  const NUM_SLOTS: nat := 4

  function AddrToMemIndex(addr: nat): nat { addr % MAX_GRAIN_SIZE / GRAIN_SIZE }

  function SizeToNumGrains(size: nat): nat { size / GRAIN_SIZE }

  /** Word w is one of those that an access of this size checks. */
  predicate Touches(addr: nat, size: nat, w: nat) {
    AddrToMemIndex(addr) <= w < AddrToMemIndex(addr) + SizeToNumGrains(size)
  }

  /** Word w of the block shares a byte with the access. */
  predicate SharesByte(addr: nat, size: nat, w: nat) {
    w * GRAIN_SIZE < addr % MAX_GRAIN_SIZE + size && addr % MAX_GRAIN_SIZE < (w + 1) * GRAIN_SIZE
  }

  /** The words checked are the words accessed exactly for aligned accesses to
      whole words. */
  lemma WordsAreExactIff(addr: nat, size: nat)
    requires 0 < size && addr % MAX_GRAIN_SIZE + size <= MAX_GRAIN_SIZE
    ensures (forall w: nat :: Touches(addr, size, w) <==> SharesByte(addr, size, w))
       <==> addr % GRAIN_SIZE == 0 && size % GRAIN_SIZE == 0
  {
    var q, g := AddrToMemIndex(addr), SizeToNumGrains(size);
    assert addr % MAX_GRAIN_SIZE == 4 * q + addr % GRAIN_SIZE && size == 4 * g + size % GRAIN_SIZE;
    if !(addr % GRAIN_SIZE == 0 && size % GRAIN_SIZE == 0) {
      assert SharesByte(addr, size, q + g) && !Touches(addr, size, q + g);
    }
  }

  /** An access to fewer than four bytes is checked against nothing. */
  lemma SmallAccessIsUnchecked(addr: nat, size: nat, w: nat)
    requires 0 < size < GRAIN_SIZE
    ensures !Touches(addr, size, w)
    ensures SharesByte(addr, size, AddrToMemIndex(addr))
  {
  }

  // --------------------------------------------------------------- the object

  class MemAccessList {
    const startAddr: nat
    const lreaders: array<Option<MemAccess>>
    const rreaders: array<Option<MemAccess>>
    const writers: array<Option<MemAccess>>

    ghost predicate Valid() {
      && lreaders.Length == rreaders.Length == writers.Length == NUM_SLOTS
      && lreaders != rreaders && rreaders != writers && writers != lreaders
      && startAddr % MAX_GRAIN_SIZE == 0
    }

    ghost function SlotAt(k: nat): Slot
      requires Valid() && k < NUM_SLOTS
      reads lreaders, rreaders, writers
    {
      Slot(lreaders[k], rreaders[k], writers[k])
    }

    predicate Covers(addr: nat, size: nat) {
      startAddr <= addr && addr + size <= startAddr + MAX_GRAIN_SIZE
    }

    lemma CoveredWords(addr: nat, size: nat)
      requires Valid() && Covers(addr, size)
      ensures AddrToMemIndex(addr) + SizeToNumGrains(size) <= NUM_SLOTS
    {
      assert startAddr == MAX_GRAIN_SIZE * (startAddr / MAX_GRAIN_SIZE);
      if addr < startAddr + MAX_GRAIN_SIZE {
        assert addr / MAX_GRAIN_SIZE == startAddr / MAX_GRAIN_SIZE;
      } else {
        assert addr / MAX_GRAIN_SIZE == startAddr / MAX_GRAIN_SIZE + 1;
      }
    }

    /** The first access to a block makes its history: the same as checking it
        against an empty one. */
    constructor (addr: nat, isRead: bool, curr: MemAccess, size: nat)
      requires addr % MAX_GRAIN_SIZE + size <= MAX_GRAIN_SIZE
      ensures Valid() && Covers(addr, size) && fresh(lreaders) && fresh(rreaders) && fresh(writers)
      ensures forall k: nat | k < NUM_SLOTS ::
                SlotAt(k) == if Touches(addr, size, k) then First(curr, isRead) else FRESH
      ensures forall o: Lists, k: nat {:trigger Apply(o, FRESH, Access(curr, isRead)), SlotAt(k)} ::
                k < NUM_SLOTS && Touches(addr, size, k) ==>
                  SlotAt(k) == Apply(o, FRESH, Access(curr, isRead)) && !Flags(o, FRESH, Access(curr, isRead))
    {
      startAddr := addr - addr % MAX_GRAIN_SIZE;
      lreaders := new Option<MemAccess>[NUM_SLOTS](_ => None);
      rreaders := new Option<MemAccess>[NUM_SLOTS](_ => None);
      writers := new Option<MemAccess>[NUM_SLOTS](_ => None);
      new;
      CoveredWords(addr, size);
      var start, grains := AddrToMemIndex(addr), SizeToNumGrains(size);
      if isRead {
        for i := start to start + grains
          invariant forall k: nat | k < NUM_SLOTS ::
                      lreaders[k] == rreaders[k] == (if start <= k < i then Some(curr) else None)
          invariant forall k: nat | k < NUM_SLOTS :: writers[k] == None
        {
          lreaders[i], rreaders[i] := Some(curr), Some(curr);
        }
      } else {
        for i := start to start + grains
          invariant forall k: nat | k < NUM_SLOTS :: writers[k] == (if start <= k < i then Some(curr) else None)
          invariant forall k: nat | k < NUM_SLOTS :: lreaders[k] == rreaders[k] == None
        {
          writers[i] := Some(curr);
        }
      }
      forall o: Lists ensures Apply(o, FRESH, Access(curr, isRead)) == First(curr, isRead) && !Flags(o, FRESH, Access(curr, isRead)) {
        FirstIsAnUpdate(o, Access(curr, isRead));
      }
    }

    method CheckRacesAndUpdateWithRead(o: Lists, addr: nat, size: nat, curr: MemAccess) returns (races: set<nat>)
      requires Valid() && Covers(addr, size)
      modifies lreaders, rreaders
      ensures forall k: nat | k < NUM_SLOTS ::
                SlotAt(k) == if Touches(addr, size, k) then ReadSlot(o, old(SlotAt(k)), curr) else old(SlotAt(k))
      ensures forall k: nat :: k in races <==> k < NUM_SLOTS && Touches(addr, size, k) && ReadRaces(o, old(SlotAt(k)), curr)
    {
      CoveredWords(addr, size);
      var start, grains := AddrToMemIndex(addr), SizeToNumGrains(size);
      races := {};
      for i := start to start + grains
        invariant forall k: nat :: k in races <==> start <= k < i && SomeRaces(o, writers[k], curr)
      {
        if writers[i].Some? && RacesWith(o, writers[i].value, curr) {
          races := races + {i};
        }
      }
      for i := start to start + grains
        invariant forall k: nat | k < NUM_SLOTS ::
                    SlotAt(k) == if start <= k < i then old(SlotAt(k)).(lreader := ReadSlot(o, old(SlotAt(k)), curr).lreader)
                                 else old(SlotAt(k))
      {
        var reader := lreaders[i];
        if reader.None? {
          lreaders[i] := Some(curr);
          continue;
        }
        if IsLeftmost(o, reader.value, curr) {
          lreaders[i] := Some(curr);
        }
      }
      for i := start to start + grains
        invariant forall k: nat | k < NUM_SLOTS ::
                    SlotAt(k) == if start <= k < i then ReadSlot(o, old(SlotAt(k)), curr)
                                 else if Touches(addr, size, k) then old(SlotAt(k)).(lreader := ReadSlot(o, old(SlotAt(k)), curr).lreader)
                                 else old(SlotAt(k))
      {
        var reader := rreaders[i];
        if reader.None? {
          rreaders[i] := Some(curr);
          continue;
        }
        if IsRightmost(o, reader.value, curr) {
          rreaders[i] := Some(curr);
        }
      }
    }

    method CheckRacesAndUpdateWithWrite(o: Lists, addr: nat, size: nat, curr: MemAccess) returns (races: set<nat>)
      requires Valid() && Covers(addr, size)
      modifies writers
      ensures forall k: nat | k < NUM_SLOTS ::
                SlotAt(k) == if Touches(addr, size, k) then WriteSlot(old(SlotAt(k)), curr) else old(SlotAt(k))
      ensures forall k: nat :: k in races <==> k < NUM_SLOTS && Touches(addr, size, k) && WriteRaces(o, old(SlotAt(k)), curr)
    {
      CoveredWords(addr, size);
      var start, grains := AddrToMemIndex(addr), SizeToNumGrains(size);
      races := {};
      for i := start to start + grains
        invariant forall k: nat | k < NUM_SLOTS ::
                    SlotAt(k) == if start <= k < i then WriteSlot(old(SlotAt(k)), curr) else old(SlotAt(k))
        invariant forall k: nat :: k in races <==> start <= k < i && SomeRaces(o, old(writers[k]), curr)
      {
        assert SlotAt(i) == old(SlotAt(i));
        var writer := writers[i];
        if writer.None? {
          writers[i] := Some(curr);
          continue;
        }
        if RacesWith(o, writer.value, curr) {
          races := races + {i};
        }
        writers[i] := Some(curr);
      }
      for i := start to start + grains
        invariant forall k: nat ::
                    (k in races <==> (&& start <= k < start + grains
                                      && (|| SomeRaces(o, old(writers[k]), curr)
                                          || (k < i && SomeRaces(o, lreaders[k], curr)))))
      {
        if lreaders[i].Some? && RacesWith(o, lreaders[i].value, curr) {
          races := races + {i};
        }
      }
      for i := start to start + grains
        invariant forall k: nat ::
                    (k in races <==> (&& start <= k < start + grains
                                      && (|| SomeRaces(o, old(writers[k]), curr) || SomeRaces(o, lreaders[k], curr)
                                          || (k < i && SomeRaces(o, rreaders[k], curr)))))
      {
        if rreaders[i].Some? && RacesWith(o, rreaders[i].value, curr) {
          races := races + {i};
        }
      }
    }
  }
}
