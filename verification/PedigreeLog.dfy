/** Records of a replay log: a pedigree is written as its ranks in decimal, from the
    root to the leaf, with underscores between them, and read back with strtol. */
module PedigreeLog {
  const PEDIGREE_BUFF_SIZE: nat := 512

  const TWO_16: int := 0x1_0000
  const TWO_63: int := 0x8000_0000_0000_0000
  const TWO_64: int := 0x1_0000_0000_0000_0000

  type uint64 = x: nat | x < TWO_64 witness 0

  /** A node of a pedigree chain and its parents up to the root; NoNode is null. */
  datatype Pedigree = NoNode | Node(rank: uint64, parent: Pedigree)

  /** The ranks from the leaf to the root. */
  function Ranks(p: Pedigree): seq<uint64> {
    if p.NoNode? then [] else [p.rank] + Ranks(p.parent)
  }

  lemma {:induction false} RanksTellChainsApart(p: Pedigree, q: Pedigree)
    ensures Ranks(p) == Ranks(q) <==> p == q
  {
    if p.Node? && q.Node? {
      RanksTellChainsApart(p.parent, q.parent);
      assert Ranks(p)[1..] == Ranks(p.parent) && Ranks(q)[1..] == Ranks(q.parent);
      assert Ranks(p) == Ranks(q) ==> Ranks(p)[0] == Ranks(q)[0];
    }
  }

  // ------------------------------------------------------------------------ writing

  function DigitChar(d: nat): (c: char)
    requires d < 10
    ensures IsDigit(c) && DigitValue(c) == d
  {
    '0' + d as char
  }

  predicate IsDigit(c: char) { '0' <= c <= '9' }

  function DigitValue(c: char): nat
    requires IsDigit(c)
  {
    (c - '0') as nat
  }

  function Decimal(n: nat): string {
    if n < 10 then [DigitChar(n)] else Decimal(n / 10) + [DigitChar(n % 10)]
  }

  function Text(p: Pedigree): string
    requires p.Node?
  {
    if p.parent.NoNode? then Decimal(p.rank) else Text(p.parent) + "_" + Decimal(p.rank)
  }

  /** What the log holds for a pedigree: "0" if there is none. */
  function Written(p: Pedigree): string { if p.NoNode? then "0" else Text(p) }

  // ------------------------------------------------------------------------ reading

  predicate IsSpace(c: char) { c == ' ' || 9 <= c as int <= 13 }

  function SkipSpace(s: string, p: nat): (q: nat)
    requires p <= |s|
    ensures p <= q <= |s| && (q < |s| ==> !IsSpace(s[q]))
    decreases |s| - p
  {
    if p < |s| && IsSpace(s[p]) then SkipSpace(s, p + 1) else p
  }

  function SkipSign(s: string, p: nat): (q: nat)
    requires p <= |s|
    ensures p <= q <= |s|
  {
    if p < |s| && (s[p] == '-' || s[p] == '+') then p + 1 else p
  }

  function DigitsEnd(s: string, p: nat): (q: nat)
    requires p <= |s|
    ensures p <= q <= |s| && (forall i | p <= i < q :: IsDigit(s[i])) && (q < |s| ==> !IsDigit(s[q]))
    decreases |s| - p
  {
    if p < |s| && IsDigit(s[p]) then DigitsEnd(s, p + 1) else p
  }

  function NumberOf(ds: string): nat
    requires forall i | 0 <= i < |ds| :: IsDigit(ds[i])
  {
    if |ds| == 0 then 0 else 10 * NumberOf(ds[..|ds| - 1]) + DigitValue(ds[|ds| - 1])
  }

  function Clamped(x: int): int {
    if x < -TWO_63 then -TWO_63 else if x >= TWO_63 then TWO_63 - 1 else x
  }

  /** strtol in base 10: the number at the start of the text, clamped to the range
      of long, and how far it reaches; 0 if there is no number. */
  function Strtol(s: string): (r: (int, nat))
    ensures r.1 <= |s| && -TWO_63 <= r.0 < TWO_63
  {
    var q := SkipSpace(s, 0);
    var d := SkipSign(s, q);
    var e := DigitsEnd(s, d);
    if e == d then (0, 0)
    else
      var n: int := NumberOf(s[d..e]);
      (Clamped(if s[q] == '-' then -n else n), e)
  }

  /** A long as an unsigned number. */
  function Cast64(x: int): uint64
    requires -TWO_63 <= x < TWO_63
  {
    if x < 0 then x + TWO_64 else x
  }

  /** All numbers in the text; any other character separates them. */
  function Terms(s: string): (ts: seq<uint64>)
    ensures |ts| > 0
    decreases |s|
  {
    var (v, e) := Strtol(s);
    if e == |s| then [Cast64(v)] else [Cast64(v)] + Terms(s[e + 1..])
  }

  /** The terms after the first. */
  function LaterTerms(s: string): seq<uint64> {
    if Strtol(s).1 == |s| then [] else Terms(s[Strtol(s).1 + 1..])
  }

  lemma FirstTerm(s: string, before: seq<uint64>)
    ensures before + Terms(s) == (before + [Cast64(Strtol(s).0)]) + LaterTerms(s)
  {
    var x, later := Cast64(Strtol(s).0), LaterTerms(s);
    assert Terms(s) == [x] + later;
    assert before + ([x] + later) == (before + [x]) + later;
  }

  // ---------------------------------------------------------- reading what was written

  lemma {:induction false} DecimalIsNumber(n: nat)
    ensures |Decimal(n)| > 0 && (forall i | 0 <= i < |Decimal(n)| :: IsDigit(Decimal(n)[i]))
    ensures NumberOf(Decimal(n)) == n
  {
    if n >= 10 {
      DecimalIsNumber(n / 10);
      assert Decimal(n)[..|Decimal(n)| - 1] == Decimal(n / 10);
    } else {
      assert Decimal(n)[..0] == [];
    }
  }

  /** A rank as it is read back. */
  function Saturated(rank: nat): uint64 { if rank < TWO_63 then rank else TWO_63 - 1 }

  lemma {:induction false} AllDigits(s: string, p: nat)
    requires p <= |s| && forall i | p <= i < |s| :: IsDigit(s[i])
    ensures DigitsEnd(s, p) == |s|
    decreases |s| - p
  {
    if p < |s| { AllDigits(s, p + 1); }
  }

  lemma TermsOfDecimal(n: nat)
    ensures Terms(Decimal(n)) == [Saturated(n)]
  {
    var s := Decimal(n);
    DecimalIsNumber(n);
    AllDigits(s, 0);
    assert s[0..|s|] == s;
    assert !IsSpace(s[0]);
    assert Strtol(s) == (Clamped(n), |s|);
  }

  lemma {:induction false} SkipSpaceBefore(a: string, b: string, p: nat)
    requires p <= |a| && |b| > 0 && b[0] == '_'
    ensures SkipSpace(a + b, p) == SkipSpace(a, p)
    decreases |a| - p
  {
    if p < |a| { SkipSpaceBefore(a, b, p + 1); }
  }

  lemma {:induction false} DigitsBefore(a: string, b: string, p: nat)
    requires p <= |a| && |b| > 0 && b[0] == '_'
    ensures DigitsEnd(a + b, p) == DigitsEnd(a, p)
    decreases |a| - p
  {
    if p < |a| { DigitsBefore(a, b, p + 1); }
  }

  /** An underscore stops strtol like the end of the text. */
  lemma StrtolBefore(a: string, b: string)
    requires |b| > 0 && b[0] == '_'
    ensures Strtol(a + b) == Strtol(a)
  {
    SkipSpaceBefore(a, b, 0);
    var q := SkipSpace(a, 0);
    var d := SkipSign(a, q);
    assert SkipSign(a + b, q) == d;
    DigitsBefore(a, b, d);
    var e := DigitsEnd(a, d);
    assert (a + b)[d..e] == a[d..e];
  }

  /** Two texts with an underscore between them hold the terms of both. */
  lemma {:induction false} TermsConcat(a: string, b: string)
    ensures Terms(a + "_" + b) == Terms(a) + Terms(b)
    decreases |a|
  {
    var e := Strtol(a).1;
    StrtolBefore(a, "_" + b);
    assert a + "_" + b == a + ("_" + b);
    if e == |a| {
      assert (a + "_" + b)[e + 1..] == b;
    } else {
      assert (a + "_" + b)[e + 1..] == a[e + 1..] + "_" + b;
      TermsConcat(a[e + 1..], b);
    }
  }

  function Reversed(s: seq<uint64>): (r: seq<uint64>)
    ensures |r| == |s| && forall i | 0 <= i < |s| :: r[i] == s[|s| - 1 - i]
  {
    if |s| == 0 then [] else Reversed(s[1..]) + [s[0]]
  }

  function AsRead(s: seq<uint64>): (r: seq<uint64>)
    ensures |r| == |s| && forall i | 0 <= i < |s| :: r[i] == Saturated(s[i])
  {
    seq(|s|, i requires 0 <= i < |s| => Saturated(s[i]))
  }

  lemma {:induction false} TermsOfText(p: Pedigree)
    requires p.Node?
    ensures Reversed(Terms(Text(p))) == AsRead(Ranks(p))
  {
    TermsOfDecimal(p.rank);
    var ts := Terms(Text(p));
    if p.parent.NoNode? {
      assert Ranks(p) == [p.rank];
      assert Reversed(ts) == [Saturated(p.rank)] == AsRead([p.rank]);
    } else {
      TermsOfText(p.parent);
      TermsConcat(Text(p.parent), Decimal(p.rank));
      var ps := Terms(Text(p.parent));
      assert ts == ps + [Saturated(p.rank)];
      assert Reversed(ts) == [Saturated(p.rank)] + Reversed(ps);
      assert AsRead(Ranks(p)) == [Saturated(p.rank)] + AsRead(Ranks(p.parent));
    }
  }

  // ---------------------------------------------------------------------- log entries

  datatype PedType = Unknown | Steal | Sync | Orphaned | Last

  function TypeOf(s: string): PedType {
    if s == "Steal" then Steal else if s == "Sync" then Sync else if s == "Orphaned" then Orphaned else Unknown
  }

  predicate IsRecorded(t: PedType) { t.Steal? || t.Sync? || t.Orphaned? }

  /** What a record of the given type is called in the log. */
  function KindOf(t: PedType): string
    requires IsRecorded(t)
  {
    match t
    case Steal => "Steal"
    case Sync => "Sync"
    case Orphaned => "Orphaned"
  }

  /** A type is read back as the one that was written, and nothing else is read as it. */
  lemma TypeRoundTrips(t: PedType, s: string)
    requires IsRecorded(t)
    ensures TypeOf(KindOf(t)) == t && (TypeOf(s) == t <==> s == KindOf(t))
  {
  }

  function Cast16(x: int): int { (x + TWO_16 / 2) % TWO_16 - TWO_16 / 2 }

  /** The ranks are stored from the leaf to the root. */
  datatype Entry = Entry(reversePedigree: seq<uint64>, pedType: PedType, value: int)

  function Loaded(kind: string, text: string, value1: int): Entry {
    Entry(Reversed(Terms(text)), TypeOf(kind), if TypeOf(kind).Steal? then Cast16(value1) else -1)
  }

  predicate Matches(e: Entry, t: PedType, p: Pedigree, victim: int) {
    t == e.pedType && (t.Steal? ==> victim == e.value) && Ranks(p) == e.reversePedigree
  }

  /** A record that is written and read back matches a chain if and only if it is of the
      type written and the chain has the recorded ranks, as they are read back. */
  lemma RecordMatchesIff(written: PedType, p: Pedigree, value1: int, t: PedType, q: Pedigree, victim: int)
    requires IsRecorded(written) && p.Node?
    ensures Matches(Loaded(KindOf(written), Written(p), value1), t, q, victim)
       <==> t == written && (t.Steal? ==> victim == Cast16(value1)) && Ranks(q) == AsRead(Ranks(p))
  {
    TypeRoundTrips(written, "");
    TermsOfText(p);
  }

  predicate RanksFit(p: Pedigree) {
    p.Node? ==> p.rank < TWO_63 && RanksFit(p.parent)
  }

  lemma {:induction false} ReadAsWrittenIff(p: Pedigree)
    ensures AsRead(Ranks(p)) == Ranks(p) <==> RanksFit(p)
  {
    if p.Node? {
      ReadAsWrittenIff(p.parent);
      var a, r := AsRead(Ranks(p)), Ranks(p);
      assert a[0] == Saturated(p.rank) && r[0] == p.rank;
      assert a[1..] == AsRead(Ranks(p.parent)) && r[1..] == Ranks(p.parent);
      assert a == [a[0]] + a[1..] && r == [r[0]] + r[1..];
    }
  }

  /** A recorded pedigree matches itself if and only if all its ranks are below two to
      the power of 63; then the record matches only its own type, pedigree and victim. */
  lemma RoundTripIff(t: PedType, p: Pedigree, victim: int, u: PedType, q: Pedigree, v: int)
    requires IsRecorded(t) && p.Node? && -TWO_16 / 2 <= victim < TWO_16 / 2
    ensures Matches(Loaded(KindOf(t), Written(p), victim), t, p, victim) <==> RanksFit(p)
    ensures RanksFit(p)
        ==> (Matches(Loaded(KindOf(t), Written(p), victim), u, q, v) <==> u == t && q == p && (t.Steal? ==> v == victim))
  {
    RecordMatchesIff(t, p, victim, t, p, victim);
    RecordMatchesIff(t, p, victim, u, q, v);
    ReadAsWrittenIff(p);
    RanksTellChainsApart(p, q);
  }

  /** A record without a pedigree reads like a chain of the single rank 0, and so
      does not match a missing chain. */
  lemma MissingPedigreeReadsAsZero(t: PedType, u: PedType, q: Pedigree, victim: int)
    requires IsRecorded(t) && !t.Steal?
    ensures Matches(Loaded(KindOf(t), Written(NoNode), victim), u, q, victim) <==> u == t && q == Node(0, NoNode)
  {
    TypeRoundTrips(t, "");
    TermsOfText(Node(0, NoNode));
    assert Written(NoNode) == Text(Node(0, NoNode)) == "0";
    assert AsRead(Ranks(Node(0, NoNode))) == Ranks(Node(0, NoNode)) == [0];
    RanksTellChainsApart(q, Node(0, NoNode));
  }

  /** A text that fits its buffer has no more terms than fit the other one. */
  lemma {:induction false} TextIsLongEnough(p: Pedigree)
    requires p.Node?
    ensures |Text(p)| >= 2 * |Ranks(p)| - 1
  {
    DecimalIsNumber(p.rank);
    if p.parent.Node? { TextIsLongEnough(p.parent); }
  }

  lemma TermsFitTheirBuffer(p: Pedigree)
    requires p.Node? && |Text(p)| < PEDIGREE_BUFF_SIZE
    ensures |Terms(Text(p))| <= PEDIGREE_BUFF_SIZE / 2
  {
    TextIsLongEnough(p);
    TermsOfText(p);
  }
}
