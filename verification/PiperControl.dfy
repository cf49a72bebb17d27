/** The control frame on its way: promotions and steals, suspending and resuming
    iterations, the throttle, and the start of the next iteration. */
module PiperControl {
  import opened PiperState
  import opened PiperSteps
  import opened PiperFrames
  import opened PiperSafety
  import opened PiperFinish

  // ------------------------------------------------------------------ promotion

  /** The status of iteration n becomes st; no phase and no counter changes. */
  function StatusSet(s: State, n: int, st: IterStatus): State
    requires |s.ring| > 0
  {
    SetBlk(s, n, Blk(s, n).(status := st))
  }

  lemma StatusSetBlocks(s: State, n: int, st: IterStatus)
    requires |s.ring| >= 2 && 1 <= n <= Started(s) && InWindow(s, n)
    ensures OnlyNear(s, StatusSet(s, n, st), n)
    ensures forall m {:trigger Blk(StatusSet(s, n, st), m)} | InWindow(s, m) ::
              Blk(StatusSet(s, n, st), m) == if m == n then Blk(s, n).(status := st) else Blk(s, m)
    ensures Shape(s) && (s.pc.Blocked? || s.pc.Past?) ==>
              Blk(StatusSet(s, n, st), Started(s) + 1 - |s.ring|).counter == Blk(s, Started(s) + 1 - |s.ring|).counter
  {
    Blocks(s, n, Blk(s, n).(status := st));
    assert Shape(s) && (s.pc.Blocked? || s.pc.Past?) ==> InWindow(s, Started(s) + 1 - |s.ring|);
  }

  lemma StatusSetNear(s: State, n: int, st: IterStatus, m: int)
    requires Inv(s) && 1 <= n <= Started(s) && InWindow(s, n) && InWindow(s, m) && m != n
    ensures IterOk(StatusSet(s, n, st), m)
  {
    StatusSetBlocks(s, n, st);
    assert IterOk(s, m);
    IterStays(s, StatusSet(s, n, st), m);
  }

  lemma StatusSetWaits(s: State, n: int, st: IterStatus, m: int)
    requires Inv(s) && 1 <= n <= Started(s) && InWindow(s, n) && n <= m <= n + 1 && m <= Started(s)
    ensures WaitsOk(StatusSet(s, n, st), m)
  {
    StatusSetBlocks(s, n, st);
    assert WaitsOk(s, m);
    if InWindow(s, m) && !LeftFreed(s, m) { LeftIsInWindow(s, m); }
  }

  lemma StatusSetIters(s: State, n: int, st: IterStatus)
    requires Inv(s) && 1 <= n <= Started(s) && InWindow(s, n) && !Blk(s, n).status.Finished? && !st.Finished?
    requires StatusOk(StatusSet(s, n, st), n)
    ensures ItersOk(StatusSet(s, n, st))
  {
    var s' := StatusSet(s, n, st);
    StatusSetBlocks(s, n, st);
    assert IterOk(s, n);
    if InWindow(s, n - 1) { StatusSetNear(s, n, st, n - 1); }
    if InWindow(s, n + 1) { StatusSetNear(s, n, st, n + 1); }
    StatusSetWaits(s, n, st, n);
    if n + 1 <= Started(s) { StatusSetWaits(s, n, st, n + 1); }
    NearIters(s, s', n);
  }

  /** The newest iteration is promoted by its own worker, which keeps the
      control frame as an implicit entry of its deque. */
  function Promoted(s: State, w: nat): State
    requires Works(s, w)
  {
    SetWorker(StatusSet(s, IterAt(s, w), PromotedActive), w, s.workers[w].(holdsControl := false, parentResume := SelfSteal))
  }

  lemma PromotionKeepsInv(s: State, w: nat)
    requires Inv(s) && Works(s, w) && s.workers[w].holdsControl
    ensures Inv(Promoted(s, w))
  {
    RunnerFacts(s, w);
    var n := IterAt(s, w);
    var g := StatusSet(s, n, PromotedActive);
    var s', x := Promoted(s, w), s.workers[w].(holdsControl := false, parentResume := SelfSteal);
    StatusSetBlocks(s, n, PromotedActive);
    StatusSetIters(s, n, PromotedActive);
    NearIgnoresWorkers(s, g, s', n);
    ItersIgnoreWorkers(g, s');
    MoverStep(s, s', n, w, x);
  }

  // ------------------------------------------- handing over the implicit parent

  predicate SameMemory(s: State, s': State) {
    s'.ring == s.ring && s'.phases == s.phases && s'.reserved == s.reserved && s'.pc == s.pc && s'.resume == s.resume
  }

  lemma WorkersIgnoreOthers(s: State, s': State, v: nat)
    requires |s.ring| > 0 && SameMemory(s, s') && v < |s.workers| && v < |s'.workers|
    requires WorkerOk(s, v) && s'.workers[v] == s.workers[v]
    ensures WorkerOk(s', v)
  {
  }

  /** Worker w gives away its implicit parent and goes on; worker t has become y. */
  function HandedOver(s: State, w: nat, t: nat, y: Worker): State
    requires w < |s.workers| && t < |s.workers|
  {
    s.(workers := s.workers[w := s.workers[w].(parentResume := NoParent)][t := y])
  }

  lemma HandedOverRunners(s: State, w: nat, t: nat, m: int)
    requires Inv(s) && Works(s, w) && IdleAt(s, t) && 1 <= m <= Started(s)
    ensures RunnersOk(HandedOver(s, w, t, RUNNING_CONTROL), m)
  {
    var x := s.workers[w].(parentResume := NoParent);
    assert RunnersOk(s, m);
    CountUpdate(s.workers, w, x, Runs(m));
    CountUpdate(s.workers[w := x], t, RUNNING_CONTROL, Runs(m));
  }

  /** w gives one implicit parent away, t gets the control frame. */
  lemma HandedOverCounts(s: State, w: nat, t: nat)
    requires Works(s, w) && IdleAt(s, t) && WorkerOk(s, t) && WorkerOk(s, w) && !s.workers[w].holdsControl
    ensures var ws := HandedOver(s, w, t, RUNNING_CONTROL).workers;
            && Count(ws, HasControl) == Count(s.workers, HasControl) + (if s.workers[w].parentResume.SelfSteal? then 0 else 1)
            && Count(ws, ResumesThrottled) == Count(s.workers, ResumesThrottled) - (if ResumesThrottled(s.workers[w]) then 1 else 0)
  {
    var x := s.workers[w].(parentResume := NoParent);
    CountUpdate(s.workers, w, x, HasControl);
    CountUpdate(s.workers[w := x], t, RUNNING_CONTROL, HasControl);
    CountUpdate(s.workers, w, x, ResumesThrottled);
    CountUpdate(s.workers[w := x], t, RUNNING_CONTROL, ResumesThrottled);
  }

  lemma TakeSelfSteal(s: State, w: nat, t: nat)
    requires Inv(s) && Works(s, w) && IdleAt(s, t) && s.workers[w].parentResume.SelfSteal?
    ensures Inv(HandedOver(s, w, t, RUNNING_CONTROL))
  {
    var s' := HandedOver(s, w, t, RUNNING_CONTROL);
    assert WorkerOk(s, w) && WorkerOk(s, t);
    ControlIsHere(s, w);
    ItersIgnoreWorkers(s, s');
    HandedOverCounts(s, w, t);
    forall v: nat | v < |s'.workers| ensures WorkerOk(s', v) {
      assert WorkerOk(s, v);
      if v != w && v != t { WorkersIgnoreOthers(s, s', v); }
    }
    forall m | 1 <= m <= Started(s') ensures RunnersOk(s', m) {
      HandedOverRunners(s, w, t, m);
    }
  }

  lemma TakeThrottledOther(s: State, w: nat, t: nat, s': State, v: nat)
    requires Inv(s) && Works(s, w) && IdleAt(s, t) && s.workers[w].parentResume.ThrottleSuspend?
    requires s' == HandedOver(s, w, t, RUNNING_CONTROL).(resume := ResumingControl, pc := Past)
    requires v < |s.workers| && v != w && v != t
    ensures WorkerOk(s', v)
  {
    var mid := HandedOver(s, w, t, RUNNING_CONTROL);
    assert WorkerOk(s, v) && WorkerOk(s, w);
    CountHas(s.workers, w, ResumesThrottled);
    if ResumesThrottled(s.workers[v]) {
      CountHasTwo(s.workers, if v < w then v else w, if v < w then w else v, ResumesThrottled);
    }
    WorkersIgnoreOthers(s, mid, v);
    BystanderReleased(mid, s', v);
  }

  lemma TakeThrottledRunners(s: State, w: nat, t: nat, s': State, m: int)
    requires Inv(s) && Works(s, w) && IdleAt(s, t) && s.workers[w].parentResume.ThrottleSuspend?
    requires s' == HandedOver(s, w, t, RUNNING_CONTROL).(resume := ResumingControl, pc := Past)
    requires 1 <= m <= Started(s)
    ensures RunnersOk(s', m)
  {
    HandedOverRunners(s, w, t, m);
    assert RunnersOk(HandedOver(s, w, t, RUNNING_CONTROL), m);
  }

  lemma TakeThrottledControl(s: State, w: nat, t: nat, s': State)
    requires Inv(s) && Works(s, w) && IdleAt(s, t) && s.workers[w].parentResume.ThrottleSuspend?
    requires s' == HandedOver(s, w, t, RUNNING_CONTROL).(resume := ResumingControl, pc := Past)
    ensures s.pc.Blocked? && Shape(s') && ControlOk(s') && WorkerOk(s', w) && WorkerOk(s', t)
  {
    assert WorkerOk(s, w) && WorkerOk(s, t);
    CountHas(s.workers, w, ResumesThrottled);
    HandedOverCounts(s, w, t);
  }

  lemma TakeThrottled(s: State, w: nat, t: nat, s': State)
    requires Inv(s) && Works(s, w) && IdleAt(s, t) && s.workers[w].parentResume.ThrottleSuspend?
    requires s' == HandedOver(s, w, t, RUNNING_CONTROL).(resume := ResumingControl, pc := Past)
    ensures Inv(s')
  {
    TakeThrottledControl(s, w, t, s');
    ItersIgnoreWorkers(s, HandedOver(s, w, t, RUNNING_CONTROL));
    ItersReleased(HandedOver(s, w, t, RUNNING_CONTROL), s');
    forall v: nat | v < |s'.workers| ensures WorkerOk(s', v) {
      if v != w && v != t { TakeThrottledOther(s, w, t, s', v); }
    }
    forall m | 1 <= m <= Started(s') ensures RunnersOk(s', m) {
      TakeThrottledRunners(s, w, t, s', m);
    }
  }

  // ---------------------------------------------------- waking a suspended iteration

  function Woken(s: State, n: int, t: nat): State
    requires |s.ring| > 0 && t < |s.workers|
  {
    SetWorker(StatusSet(s, n, PromotedActive), t, Worker(RunsIter(n), NoParent, false))
  }

  lemma WakeRunners(s: State, n: int, t: nat, m: int)
    requires Inv(s) && 1 <= n <= Started(s) && InWindow(s, n) && IdleAt(s, t) && 1 <= m <= Started(s)
    requires Blk(s, n).status.PromotedSuspended?
    ensures RunnersOk(Woken(s, n, t), m)
  {
    StatusSetBlocks(s, n, PromotedActive);
    assert RunnersOk(s, m) && IterOk(s, n);
    var s' := Woken(s, n, t);
    assert forall i :: Blk(s', i) == Blk(StatusSet(s, n, PromotedActive), i);
    CountUpdate(s.workers, t, Worker(RunsIter(n), NoParent, false), Runs(m));
  }

  lemma WakeOther(s: State, n: int, t: nat, v: nat)
    requires Inv(s) && 1 <= n <= Started(s) && InWindow(s, n) && IdleAt(s, t) && v < |s.workers| && v != t
    requires Blk(s, n).status.PromotedSuspended?
    ensures WorkerOk(Woken(s, n, t), v)
  {
    StatusSetBlocks(s, n, PromotedActive);
    var g, s' := StatusSet(s, n, PromotedActive), Woken(s, n, t);
    NearIgnoresWorkers(s, g, s', n);
    assert WorkerOk(s, v) && RunnersOk(s, n);
    NoRunner(s, v, n);
    OtherWorker(s, s', n, v);
  }

  lemma WakeMemory(s: State, n: int, t: nat)
    requires Inv(s) && 1 <= n <= Started(s) && InWindow(s, n) && IdleAt(s, t) && Blk(s, n).status.PromotedSuspended?
    ensures ItersOk(Woken(s, n, t)) && WorkerOk(Woken(s, n, t), t)
  {
    var g := StatusSet(s, n, PromotedActive);
    StatusSetBlocks(s, n, PromotedActive);
    assert IterOk(s, n);
    StatusSetIters(s, n, PromotedActive);
    NearIgnoresWorkers(s, g, Woken(s, n, t), n);
    ItersIgnoreWorkers(g, Woken(s, n, t));
  }

  lemma WakeControl(s: State, n: int, t: nat)
    requires Inv(s) && 1 <= n <= Started(s) && InWindow(s, n) && IdleAt(s, t)
    ensures ControlOk(Woken(s, n, t))
  {
    var x := Worker(RunsIter(n), NoParent, false);
    StatusSetBlocks(s, n, PromotedActive);
    assert forall m :: Blk(Woken(s, n, t), m) == Blk(StatusSet(s, n, PromotedActive), m);
    assert WorkerOk(s, t);
    CountUpdate(s.workers, t, x, HasControl);
    CountUpdate(s.workers, t, x, ResumesThrottled);
  }

  lemma WakeKeepsInv(s: State, n: int, t: nat)
    requires Inv(s) && 1 <= n <= Started(s) && InWindow(s, n) && IdleAt(s, t) && Blk(s, n).status.PromotedSuspended?
    ensures Inv(Woken(s, n, t))
  {
    var s' := Woken(s, n, t);
    WakeMemory(s, n, t);
    WakeControl(s, n, t);
    forall v: nat | v < |s'.workers| ensures WorkerOk(s', v) {
      if v != t { WakeOther(s, n, t, v); }
    }
    forall m | 1 <= m <= Started(s') ensures RunnersOk(s', m) {
      WakeRunners(s, n, t, m);
    }
  }

  // ------------------------------------------------------------------ steals

  lemma PromoteSelfKeepsInv(s: State, w: nat)
    requires Inv(s) && Can(s, PromoteSelf(w))
    ensures Inv(Do(s, PromoteSelf(w)))
  {
    PromotionKeepsInv(s, w);
  }

  /** A steal of the control frame is a promotion whose implicit parent the
      thief takes at once. */
  lemma StealKeepsInv(s: State, t: nat, w: nat)
    requires Inv(s) && Can(s, Steal(t, w))
    ensures Inv(Do(s, Steal(t, w)))
  {
    PromotionKeepsInv(s, w);
    var p := Promoted(s, w);
    TakeSelfSteal(p, w, t);
    assert WorkerOk(s, w);
    assert DoSteal(s, t, w) == HandedOver(p, w, t, RUNNING_CONTROL);
  }

  lemma RightIsWoken(s: State, n: int, t: nat)
    requires Inv(s) && 1 <= n <= Started(s) && InWindow(s, n) && IdleAt(s, t) && RightIsReady(s, n)
    ensures SetWorker(ResumeRight(s, n), t, Worker(RunsIter(Blk(s, n + 1).iterNum), NoParent, false)) == Woken(s, n + 1, t)
    ensures Inv(Woken(s, n + 1, t))
  {
    RightIsNext(s, n);
    WakeKeepsInv(s, n + 1, t);
  }

  lemma ImplicitStealKeepsInv(s: State, t: nat, w: nat)
    requires Inv(s) && Can(s, ImplicitSteal(t, w))
    ensures Inv(DoImplicitSteal(s, t, w))
  {
    RunnerFacts(s, w);
    var x := s.workers[w];
    if x.parentResume.SelfSteal? {
      TakeSelfSteal(s, w, t);
      assert DoImplicitSteal(s, t, w) == HandedOver(s, w, t, RUNNING_CONTROL);
    } else if x.parentResume.ThrottleSuspend? {
      TakeThrottled(s, w, t, DoImplicitSteal(s, t, w));
    } else {
      assert s.workers[w := x.(parentResume := NoParent)] == s.workers;
      if RightIsReady(s, IterAt(s, w)) {
        RightIsWoken(s, IterAt(s, w), t);
      }
    }
  }

  // ---------------------------------------------------------------- stage waits

  /** Iteration n is suspended; its worker keeps nothing but an implicit parent. */
  function Suspended(s: State, w: nat): State
    requires Works(s, w)
  {
    SetWorker(StatusSet(s, IterAt(s, w), PromotedSuspended), w,
              if s.workers[w].parentResume.NoParent? then IDLE else RUNNING_CONTROL)
  }

  /** Only the control frame of a self-steal is ever taken along here: a worker
      that is to resume a control frame suspended at the throttle runs an
      iteration whose left neighbour is done, and never stalls. */
  lemma StallingFacts(s: State, w: nat)
    requires Inv(s) && Can(s, SuspendAtWait(w)) && Stalls(s, IterAt(s, w))
    ensures !s.workers[w].parentResume.ThrottleSuspend?
    ensures IterAt(s, w) >= 2 && !StageDone(PhaseOf(s, IterAt(s, w) - 1))
    ensures s.workers[w].parentResume.SelfSteal? ==> IterAt(s, w) == Started(s)
  {
    RunnerFacts(s, w);
    assert WorkerOk(s, w);
  }

  lemma SuspendedMoves(s: State, w: nat)
    requires Inv(s) && Can(s, SuspendAtWait(w)) && Stalls(s, IterAt(s, w))
    ensures Moves(s, Suspended(s, w), IterAt(s, w), w, Suspended(s, w).workers[w])
  {
    RunnerFacts(s, w);
    var n := IterAt(s, w);
    StatusSetBlocks(s, n, PromotedSuspended);
    NearIgnoresWorkers(s, StatusSet(s, n, PromotedSuspended), Suspended(s, w), n);
  }

  lemma SuspendedBalanced(s: State, w: nat)
    requires Inv(s) && Can(s, SuspendAtWait(w)) && Stalls(s, IterAt(s, w))
    ensures Balanced(s, Suspended(s, w), w, Suspended(s, w).workers[w])
  {
    RunnerFacts(s, w);
    StallingFacts(s, w);
    var n := IterAt(s, w);
    StatusSetBlocks(s, n, PromotedSuspended);
    assert forall m :: Blk(Suspended(s, w), m) == Blk(StatusSet(s, n, PromotedSuspended), m);
    if HasControl(s.workers[w]) { ControlIsHere(s, w); }
  }

  lemma SuspendedKeepsInv(s: State, w: nat)
    requires Inv(s) && Can(s, SuspendAtWait(w)) && Stalls(s, IterAt(s, w))
    ensures Inv(Suspended(s, w))
  {
    RunnerFacts(s, w);
    StallingFacts(s, w);
    var n := IterAt(s, w);
    var g, s' := StatusSet(s, n, PromotedSuspended), Suspended(s, w);
    StatusSetBlocks(s, n, PromotedSuspended);
    assert PhaseOf(g, n - 1) == PhaseOf(s, n - 1);
    StatusSetIters(s, n, PromotedSuspended);
    ItersIgnoreWorkers(g, s');
    SuspendedMoves(s, w);
    SuspendedBalanced(s, w);
    MoverStep(s, s', n, w, s'.workers[w]);
  }

  lemma SuspendShape(s: State, w: nat)
    requires Inv(s) && Can(s, SuspendAtWait(w)) && Stalls(s, IterAt(s, w))
    ensures var n, s1 := IterAt(s, w), Suspended(s, w);
            && InWindow(s, n)
            && (RightIsReady(s1, n) ==> IdleAt(s1, w) && DoSuspend(s, w) == SetWorker(ResumeRight(s1, n), w, Worker(RunsIter(Blk(s1, n + 1).iterNum), NoParent, false)))
            && (!RightIsReady(s1, n) ==> DoSuspend(s, w) == s1)
  {
    var n, s1 := IterAt(s, w), Suspended(s, w);
    var g := StatusSet(s, n, PromotedSuspended);
    RunnerFacts(s, w);
    SuspendedKeepsInv(s, w);
    StallingFacts(s, w);
    assert forall m :: Blk(s1, m) == Blk(g, m);
    assert RightIsReady(s1, n) <==> RightIsReady(g, n);
    if RightIsReady(s1, n) {
      RightIsNext(s1, n);
    }
  }

  lemma SuspendKeepsInv(s: State, w: nat)
    requires Inv(s) && Can(s, SuspendAtWait(w))
    ensures Inv(DoSuspend(s, w))
  {
    if Stalls(s, IterAt(s, w)) {
      var n, s1 := IterAt(s, w), Suspended(s, w);
      SuspendShape(s, w);
      SuspendedKeepsInv(s, w);
      if RightIsReady(s1, n) {
        RightIsWoken(s1, n, w);
      }
    }
  }
}
