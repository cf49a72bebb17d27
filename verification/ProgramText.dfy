/** The text of a program, iteration by iteration: where each iteration is in it, and
    why the race detector, called from the text, sees a run of its pipeline. */
module ProgramText {
  import opened Basics
  import opened LeftDependency
  import PipelineRun
  import RaceDetection

  /** Where an iteration is in its text: how many stages it has told the detector
      about, and whether it has set its counter for the next one. */
  datatype Pc = Pc(entered: nat, announced: bool)

  const AT_START := Pc(0, false)

  const FINAL_USER_STAGE: int := PipelineRun.FINAL_USER_STAGE

  /** A stage macro has put the control frame on the deque. */
  predicate Detached(p: Pc) { p.announced || p.entered >= 2 }

  /** Row i of the program starts with stage 0, never goes back, and stays below the
      final stage. */
  predicate RowFits(prog: Program, i: nat)
    requires i < |prog|
  {
    var row := prog[i];
    && |row| > 0 && row[0] == Entry(0, false)
    && (forall k | 0 <= k < |row| :: row[k].num < FINAL_USER_STAGE)
    && (forall j, k | 0 <= j <= k < |row| :: row[j].num <= row[k].num)
  }

  predicate ProgramFits(prog: Program) { forall i: nat {:trigger RowFits(prog, i)} | i < |prog| :: RowFits(prog, i) }

  lemma ValidProgramFits(prog: Program)
    requires PipelineRun.ValidProgram(prog)
    ensures ProgramFits(prog)
  {
    forall i: nat | i < |prog| ensures RowFits(prog, i) {
      assert PipelineRun.RowIsUsable(prog[i]);
      var row := prog[i];
      forall j, k | 0 <= j <= k < |row| ensures row[j].num <= row[k].num {
        assert Nums(row)[j] <= Nums(row)[k];
      }
    }
  }

  /** The stage counter that belongs to a place in the text of an iteration; those
      behind the program only have the closing wait. */
  function CounterAt(prog: Program, i: nat, p: Pc): int {
    if p.announced then
      if i < |prog| && p.entered < |prog[i]| then prog[i][p.entered].num else FINAL_USER_STAGE
    else if i < |prog| && 1 <= p.entered <= |prog[i]| then prog[i][p.entered - 1].num
    else 0
  }

  /** Whether stage k of an iteration waits; the closing wait does. */
  predicate WaitsAt(prog: Program, i: nat, k: nat) { i < |prog| && k < |prog[i]| ==> prog[i][k].waits }

  /** Going on in the text of iteration i. */
  predicate GoesOn(prog: Program, i: nat, p: Pc, p': Pc) {
    || p' == p
    || (p' == p.(announced := true) && (i < |prog| ==> 1 <= p.entered <= |prog[i]|))
    || (i < |prog| && p == AT_START && p' == Pc(1, false))
    || (i < |prog| && p.announced && 1 <= p.entered < |prog[i]| && p' == Pc(p.entered + 1, false))
  }

  lemma CounterGrows(prog: Program, i: nat, p: Pc, p': Pc)
    requires ProgramFits(prog) && GoesOn(prog, i, p, p')
    ensures CounterAt(prog, i, p) <= CounterAt(prog, i, p')
    ensures Detached(p) ==> Detached(p')
  {
    assert i < |prog| ==> RowFits(prog, i);
  }

  // ------------------------------------------------------- all iterations together

  /** Iteration k is the next to begin, and the one before it has detached. */
  predicate BeginsNext(prog: Program, pcs: seq<Pc>, k: nat) {
    && k < |pcs| && k < |prog| && pcs[k] == AT_START
    && (forall j: nat | j < k :: pcs[j].entered >= 1) && (k > 0 ==> Detached(pcs[k - 1]))
  }

  /** The text goes on by one call of the detector. */
  predicate CallMoves(prog: Program, pcs: seq<Pc>, d: PipelineRun.Step, pcs': seq<Pc>) {
    match d
    case Begin => exists k: nat :: k < |pcs| && BeginsNext(prog, pcs, k) && pcs' == pcs[k := Pc(1, false)]
    case Announce(i) =>
      i < |pcs| && i < |prog| && pcs[i].entered >= 1 && !pcs[i].announced && pcs' == pcs[i := pcs[i].(announced := true)]
    case Enter(i) =>
      && i < |pcs| && i < |prog| && pcs[i].announced && 1 <= pcs[i].entered < |prog[i]|
      && (prog[i][pcs[i].entered].waits && i > 0 ==> CounterAt(prog, i - 1, pcs[i - 1]) > prog[i][pcs[i].entered].num)
      && pcs' == pcs[i := Pc(pcs[i].entered + 1, false)]
    case Use(i, _, _) => i < |pcs| && i < |prog| && !pcs[i].announced && pcs[i].entered >= 1 && pcs' == pcs
  }

  /** The text goes on without one: at most iterations that have not begun change. */
  predicate SilentlyMoves(prog: Program, pcs: seq<Pc>, pcs': seq<Pc>) {
    && |pcs| <= |pcs'|
    && (forall i: nat | i < |pcs| :: pcs'[i].entered == pcs[i].entered && (pcs[i].entered >= 1 ==> pcs'[i] == pcs[i]))
    && (forall i: nat | |pcs| <= i < |pcs'| :: pcs'[i] == AT_START)
  }

  predicate TextMoves(prog: Program, pcs: seq<Pc>, call: Option<PipelineRun.Step>, pcs': seq<Pc>) {
    if call.Some? then CallMoves(prog, pcs, call.value, pcs') else SilentlyMoves(prog, pcs, pcs')
  }

  predicate IsTextRun(prog: Program, texts: seq<seq<Pc>>, calls: seq<Option<PipelineRun.Step>>) {
    && |texts| == |calls| + 1 && texts[0] == []
    && forall i: nat {:trigger calls[i]} | i < |calls| :: TextMoves(prog, texts[i], calls[i], texts[i + 1])
  }

  /** All that the detector is told. */
  function Told(calls: seq<Option<PipelineRun.Step>>): seq<PipelineRun.Step> {
    if |calls| == 0 then []
    else
      var last := calls[|calls| - 1];
      Told(calls[..|calls| - 1]) + if last.Some? then [last.value] else []
  }

  /** What the detector is told in the end begins with what it has been told so far. */
  lemma {:induction false} ToldInOrder(calls: seq<Option<PipelineRun.Step>>, m: nat)
    requires m < |calls| && calls[m].Some?
    ensures |Told(calls[..m])| < |Told(calls)| && Told(calls)[|Told(calls[..m])|] == calls[m].value
    ensures Told(calls)[..|Told(calls[..m])|] == Told(calls[..m])
  {
    var l := |calls| - 1;
    if m < l {
      assert calls[..l][..m] == calls[..m];
      ToldInOrder(calls[..l], m);
    }
  }

  lemma {:induction false} ToldByCall(calls: seq<Option<PipelineRun.Step>>, k: nat) returns (m: nat)
    requires k < |Told(calls)|
    ensures m < |calls| && calls[m] == Some(Told(calls)[k]) && |Told(calls[..m])| == k
  {
    var l := |calls| - 1;
    if k < |Told(calls[..l])| {
      m := ToldByCall(calls[..l], k);
      assert calls[..l][..m] == calls[..m];
    } else {
      m := l;
    }
  }

  // ------------------------------------------------------------ the detector follows

  /** The detector knows where iteration i is in its text. */
  predicate Knows(pcs: seq<Pc>, r: PipelineRun.Run, i: nat)
    requires i < |pcs| && |r.iters| == |PipelineRun.Rows(r)|
  {
    && (pcs[i].entered >= 1 <==> i < |r.iters|)
    && (i < |r.iters| ==> pcs[i] == Pc(|PipelineRun.Rows(r)[i].frames|, r.iters[i].announced))
  }

  predicate KnowsAll(pcs: seq<Pc>, r: PipelineRun.Run) {
    && |r.iters| == |PipelineRun.Rows(r)| <= |pcs|
    && forall i: nat {:trigger Knows(pcs, r, i)} | i < |pcs| :: Knows(pcs, r, i)
  }

  /** The detector's counters are those of the text. */
  lemma CountersAgree(prog: Program, pcs: seq<Pc>, r: PipelineRun.Run, i: nat)
    requires KnowsAll(pcs, r) && i < |r.iters| <= |prog| && PipelineRun.RowFollows(prog, r, i)
    ensures r.iters[i].stage == CounterAt(prog, i, pcs[i])
  {
    assert Knows(pcs, r, i);
  }

  lemma BeginIsStep(prog: Program, pcs: seq<Pc>, r: PipelineRun.Run, k: nat)
    requires PipelineRun.Follows(prog, r) && KnowsAll(pcs, r) && BeginsNext(prog, pcs, k)
    ensures PipelineRun.CanDo(prog, r, PipelineRun.Begin)
  {
    BeginIsNext(prog, pcs, r, k);
    if k > 0 { assert Knows(pcs, r, k - 1); }
  }

  lemma EnterIsStep(prog: Program, pcs: seq<Pc>, r: PipelineRun.Run, i: nat, pcs': seq<Pc>)
    requires PipelineRun.Follows(prog, r) && KnowsAll(pcs, r) && CallMoves(prog, pcs, PipelineRun.Enter(i), pcs')
    ensures PipelineRun.CanDo(prog, r, PipelineRun.Enter(i))
  {
    assert Knows(pcs, r, i);
    if i > 0 {
      assert PipelineRun.RowFollows(prog, r, i - 1);
      CountersAgree(prog, pcs, r, i - 1);
    }
  }

  lemma CallIsStep(prog: Program, pcs: seq<Pc>, d: PipelineRun.Step, pcs': seq<Pc>, r: PipelineRun.Run)
    requires PipelineRun.Follows(prog, r) && KnowsAll(pcs, r) && CallMoves(prog, pcs, d, pcs')
    ensures PipelineRun.CanDo(prog, r, d)
  {
    match d
    case Begin =>
      var k: nat :| k < |pcs| && BeginsNext(prog, pcs, k) && pcs' == pcs[k := Pc(1, false)];
      BeginIsStep(prog, pcs, r, k);
    case Enter(i) => EnterIsStep(prog, pcs, r, i, pcs');
    case Announce(i) => assert Knows(pcs, r, i);
    case Use(i, _, _) => assert Knows(pcs, r, i);
  }

  lemma BeginIsNext(prog: Program, pcs: seq<Pc>, r: PipelineRun.Run, k: nat)
    requires KnowsAll(pcs, r) && BeginsNext(prog, pcs, k)
    ensures k == |r.iters|
  {
    assert Knows(pcs, r, k);
    assert |r.iters| < |pcs| ==> Knows(pcs, r, |r.iters|);
  }

  lemma CallKeepsKnowledge(prog: Program, pcs: seq<Pc>, d: PipelineRun.Step, pcs': seq<Pc>, r: PipelineRun.Run, r': PipelineRun.Run)
    requires KnowsAll(pcs, r) && CallMoves(prog, pcs, d, pcs') && PipelineRun.StepShape(r, d, r')
    ensures KnowsAll(pcs', r')
  {
    if d.Begin? {
      var k: nat :| BeginsNext(prog, pcs, k) && pcs' == pcs[k := Pc(1, false)];
      BeginIsNext(prog, pcs, r, k);
    }
    forall i: nat | i < |pcs'| ensures Knows(pcs', r', i) {
      assert Knows(pcs, r, i);
    }
  }

  lemma SilenceKeepsKnowledge(prog: Program, pcs: seq<Pc>, pcs': seq<Pc>, r: PipelineRun.Run)
    requires KnowsAll(pcs, r) && SilentlyMoves(prog, pcs, pcs')
    ensures KnowsAll(pcs', r)
  {
    forall i: nat | i < |pcs'| ensures Knows(pcs', r, i) {
      if i < |pcs| { assert Knows(pcs, r, i); }
    }
  }

  /** The detector has executed these steps and knows where the text is. */
  ghost predicate HasFollowed(prog: Program, pcs: seq<Pc>, steps: seq<PipelineRun.Step>)
    requires PipelineRun.ValidProgram(prog)
  {
    RaceDetection.Execute(prog, steps).Some? && KnowsAll(pcs, RaceDetection.Execute(prog, steps).value)
  }

  lemma CallIsFollowed(prog: Program, pcs: seq<Pc>, d: PipelineRun.Step, pcs': seq<Pc>, steps: seq<PipelineRun.Step>)
    requires PipelineRun.ValidProgram(prog) && HasFollowed(prog, pcs, steps) && CallMoves(prog, pcs, d, pcs')
    ensures HasFollowed(prog, pcs', steps + [d])
  {
    var r := RaceDetection.Execute(prog, steps).value;
    CallIsStep(prog, pcs, d, pcs', r);
    RaceDetection.ExecuteMore(prog, steps, d);
    PipelineRun.StepShapes(prog, r, d);
    CallKeepsKnowledge(prog, pcs, d, pcs', r, PipelineRun.Do(prog, r, d));
  }

  /** The calls from the text of a program are a run of the detector's pipeline. */
  lemma {:induction false} TextIsFollowed(prog: Program, texts: seq<seq<Pc>>, calls: seq<Option<PipelineRun.Step>>, n: nat)
    requires PipelineRun.ValidProgram(prog) && IsTextRun(prog, texts, calls) && n <= |calls|
    ensures HasFollowed(prog, texts[n], Told(calls[..n]))
  {
    if n > 0 {
      TextIsFollowed(prog, texts, calls, n - 1);
      assert calls[..n][..n - 1] == calls[..n - 1];
      if calls[n - 1].Some? {
        CallIsFollowed(prog, texts[n - 1], calls[n - 1].value, texts[n], Told(calls[..n - 1]));
      } else {
        assert Told(calls[..n]) == Told(calls[..n - 1]);
        SilenceKeepsKnowledge(prog, texts[n - 1], texts[n], RaceDetection.Execute(prog, Told(calls[..n - 1])).value);
      }
    } else {
      assert calls[..0] == [];
    }
  }

  /** When all texts have ended the detector knows every stage. */
  lemma AllIsKnown(prog: Program, pcs: seq<Pc>, r: PipelineRun.Run, i: nat)
    requires KnowsAll(pcs, r) && i < |prog| && |pcs| == |prog| + 1 && pcs[|prog|].entered == 0
    requires pcs[|prog| - 1].entered >= 1 && pcs[i].entered == |prog[i]| >= 1
    ensures |r.iters| == |prog| && |PipelineRun.Rows(r)[i].frames| == |prog[i]|
  {
    assert Knows(pcs, r, i) && Knows(pcs, r, |prog| - 1) && Knows(pcs, r, |prog|);
  }
}
