/** The throttle: control passes it when the block it is to reuse has been given
    up on both sides, resets the block and starts the next iteration in it. */
module PiperThrottle {
  import opened PiperState
  import opened PiperSteps
  import opened PiperFrames
  import opened PiperSafety

  /** The iteration whose block is to be reused. */
  function Oldest(s: State): int { Started(s) + 1 - |s.ring| }

  lemma NextIsOldest(s: State, w: nat)
    requires Inv(s) && Controls(s, w) && !s.pc.Next?
    ensures s.reserved == Started(s) && InWindow(s, Oldest(s)) && NextBlk(s) == Blk(s, Oldest(s))
    ensures forall b :: SetBlk(s, Started(s) + 1, b) == SetBlk(s, Oldest(s), b)
  {
    assert WorkerOk(s, w);
    SameSlot(s, Oldest(s));
    SlotsOn(|s.ring|, Oldest(s), |s.ring|);
  }

  // --------------------------------------------------------------- arriving

  /** Control has counted itself at the block. */
  function Arrives(s: State, pc: ControlPc, resume: ResumeFlags): State
    requires |s.ring| > 0
  {
    var b := Blk(s, Oldest(s));
    SetBlk(s, Oldest(s), b.(counter := b.counter - CLEANUP_THROTTLE_VAL)).(pc := pc, resume := resume)
  }

  lemma ArrivesBlocks(s: State, w: nat, pc: ControlPc, resume: ResumeFlags)
    requires Inv(s) && Controls(s, w) && !s.pc.Next?
    ensures forall m {:trigger Blk(Arrives(s, pc, resume), m)} | InWindow(s, m) ::
              Blk(Arrives(s, pc, resume), m)
              == if m == Oldest(s) then Blk(s, m).(counter := Blk(s, m).counter - CLEANUP_THROTTLE_VAL) else Blk(s, m)
  {
    NextIsOldest(s, w);
    var b := Blk(s, Oldest(s)).(counter := Blk(s, Oldest(s)).counter - CLEANUP_THROTTLE_VAL);
    Blocks(s, Oldest(s), b);
    assert forall m :: Blk(Arrives(s, pc, resume), m) == Blk(SetBlk(s, Oldest(s), b), m);
  }

  lemma ArrivesIter(s: State, w: nat, pc: ControlPc, resume: ResumeFlags, m: int)
    requires Inv(s) && Controls(s, w) && (s.pc.Spawned? || s.pc.Slow?) && (pc.Blocked? || pc.Past?) && InWindow(s, m)
    ensures IterOk(Arrives(s, pc, resume), m)
  {
    ArrivesBlocks(s, w, pc, resume);
    assert IterOk(s, m);
  }

  lemma ArrivesIters(s: State, w: nat, pc: ControlPc, resume: ResumeFlags)
    requires Inv(s) && Controls(s, w) && (s.pc.Spawned? || s.pc.Slow?) && (pc.Blocked? || pc.Past?)
    ensures ItersOk(Arrives(s, pc, resume))
    ensures Blk(Arrives(s, pc, resume), Oldest(s)).counter == Blk(s, Oldest(s)).counter - CLEANUP_THROTTLE_VAL
  {
    NextIsOldest(s, w);
    ArrivesBlocks(s, w, pc, resume);
    var s' := Arrives(s, pc, resume);
    forall m | InWindow(s', m) ensures IterOk(s', m) {
      ArrivesIter(s, w, pc, resume, m);
    }
    forall m | 1 <= m <= Started(s') ensures WaitsOk(s', m) {
      assert WaitsOk(s, m);
      if InWindow(s, m) && !LeftFreed(s, m) { LeftIsInWindow(s, m); }
    }
    forall m | 0 <= m <= s'.reserved - |s'.ring| ensures GoneOk(s', m) {
      assert GoneOk(s, m);
    }
  }

  /** Workers see a control frame on its way to the throttle, or past it, alike. */
  lemma OthersWhileControl(s: State, s': State, w: nat, v: nat)
    requires Inv(s) && Controls(s, w) && v < |s.workers| && v != w
    requires |s'.ring| == |s.ring| && s'.reserved == s.reserved && s'.phases == s.phases
    requires v < |s'.workers| && s'.workers[v] == s.workers[v]
    requires forall m {:trigger Blk(s', m)} | InWindow(s, m) :: Blk(s', m).status == Blk(s, m).status
    ensures WorkerOk(s', v)
  {
    assert WorkerOk(s, v);
    if HasControl(s.workers[v]) { OneControl(s, v, w); }
    ControlIsHere(s, w);
    if ResumesThrottled(s.workers[v]) { CountHas(s.workers, v, ResumesThrottled); }
    if s.workers[v].task.RunsIter? {
      assert PhaseOf(s', s.workers[v].task.n) == PhaseOf(s, s.workers[v].task.n);
    }
  }

  lemma RunnersWhileControl(s: State, s': State, w: nat, x: Worker, m: int)
    requires Inv(s) && Controls(s, w) && s'.workers == s.workers[w := x] && !x.task.RunsIter? && !x.task.RunsExit?
    requires |s'.ring| == |s.ring| && s'.reserved == s.reserved && s'.phases == s.phases && 1 <= m <= Started(s)
    requires forall i {:trigger Blk(s', i)} | InWindow(s, i) :: Blk(s', i).status == Blk(s, i).status
    ensures RunnersOk(s', m)
  {
    assert RunnersOk(s, m);
    CountUpdate(s.workers, w, x, Runs(m));
  }

  /** Control goes on as x at pc; the blocks keep their statuses. */
  lemma ControlMoves(s: State, s': State, w: nat, x: Worker)
    requires Inv(s) && Controls(s, w) && s'.workers == s.workers[w := x] && (x == RUNNING_CONTROL || x == IDLE)
    requires |s'.ring| == |s.ring| && s'.reserved == s.reserved && s'.phases == s.phases && ItersOk(s') && Shape(s')
    requires forall m {:trigger Blk(s', m)} | InWindow(s, m) :: Blk(s', m).status == Blk(s, m).status
    requires x == RUNNING_CONTROL ==> s'.pc.Spawned? || s'.pc.Slow? || s'.pc.Past? || s'.pc.Next?
    requires x == IDLE <==> s'.pc.Blocked? || s'.pc.Ended?
    requires s'.pc.Blocked? ==> Blk(s', Oldest(s)).counter > 0
    requires s'.pc.Past? ==> Blk(s', Oldest(s)).counter == 0
    ensures Inv(s')
  {
    ControlIsHere(s, w);
    CountUpdate(s.workers, w, x, HasControl);
    CountUpdate(s.workers, w, x, ResumesThrottled);
    assert WorkerOk(s, w);
    forall v: nat | v < |s'.workers| ensures WorkerOk(s', v) {
      if v != w { OthersWhileControl(s, s', w, v); }
    }
    forall m | 1 <= m <= Started(s') ensures RunnersOk(s', m) {
      RunnersWhileControl(s, s', w, x, m);
    }
  }

  lemma OldestCounter(s: State, w: nat)
    requires Inv(s) && Controls(s, w) && !s.pc.Next?
    ensures var c := Blk(s, Oldest(s)).counter;
            && c == CounterOf(s, Oldest(s))
            && (s.pc.Past? ==> c == 0) && (!s.pc.Past? ==> c >= 1)
            && (c <= 1 <==> OwnFreed(s, Oldest(s)) && LeftFreed(s, Oldest(s) + 1))
  {
    NextIsOldest(s, w);
    assert IterOk(s, Oldest(s)) && WorkerOk(s, w);
    ControlIsHere(s, w);
  }

  lemma ThrottleKeepsInv(s: State, w: nat)
    requires Inv(s) && Can(s, Throttle(w))
    ensures Inv(DoThrottle(s))
  {
    NextIsOldest(s, w);
    OldestCounter(s, w);
    var s' := DoThrottle(s);
    assert s.workers[w := RUNNING_CONTROL] == s.workers by { assert WorkerOk(s, w); }
    if ReadyForReuse(NextBlk(s)) {
      assert s' == Arrives(s, Past, s.resume);
      ArrivesIters(s, w, Past, s.resume);
      ArrivesBlocks(s, w, Past, s.resume);
    } else {
      SlowIters(s, s');
    }
    ControlMoves(s, s', w, RUNNING_CONTROL);
  }

  lemma SlowIters(s: State, s': State)
    requires |s.ring| > 0 && ItersOk(s) && s.pc.Spawned? && s' == s.(pc := Slow)
    ensures ItersOk(s') && forall m :: Blk(s', m) == Blk(s, m)
  {
    forall m | InWindow(s', m) ensures IterOk(s', m) {
      assert IterOk(s, m);
    }
    forall m | 1 <= m <= Started(s') ensures WaitsOk(s', m) {
      assert WaitsOk(s, m);
    }
    forall m | 0 <= m <= s'.reserved - |s'.ring| ensures GoneOk(s', m) {
      assert GoneOk(s, m);
    }
  }

  lemma SuspendAtThrottleKeepsInv(s: State, w: nat)
    requires Inv(s) && Can(s, SuspendAtThrottle(w))
    ensures Inv(DoSuspendAtThrottle(s, w))
  {
    NextIsOldest(s, w);
    OldestCounter(s, w);
    var s' := DoSuspendAtThrottle(s, w);
    assert s.workers[w := RUNNING_CONTROL] == s.workers by { assert WorkerOk(s, w); }
    if s'.pc.Past? {
      assert s' == Arrives(s, Past, ResumingControl);
      ArrivesIters(s, w, Past, ResumingControl);
      ArrivesBlocks(s, w, Past, ResumingControl);
      ControlMoves(s, s', w, RUNNING_CONTROL);
    } else {
      var g := Arrives(s, Blocked, SuspendedControl);
      assert s' == g.(workers := s.workers[w := IDLE]);
      ArrivesIters(s, w, Blocked, SuspendedControl);
      ArrivesBlocks(s, w, Blocked, SuspendedControl);
      assert forall m :: Blk(s', m) == Blk(g, m);
      ItersIgnoreWorkers(g, s');
      ControlMoves(s, s', w, IDLE);
    }
  }

  // ---------------------------------------------------------- reusing the block

  /** What control may rely on when it resets the block: nobody holds a claim on
      it, and the iteration that used it and the one after it are through. */
  lemma ReuseIsSafe(s: State, w: nat)
    requires Inv(s) && Can(s, ReserveNext(w))
    ensures NextBlk(s).counter == 0 && !NextBlk(s).inUse && NextBlk(s).status.Finished?
    ensures Oldest(s) >= 1 ==> PhaseOf(s, Oldest(s)).Done? && NextBlk(s).iterNum == Oldest(s)
    ensures LeftFreed(s, Oldest(s) + 1)
  {
    NextIsOldest(s, w);
    OldestCounter(s, w);
    assert IterOk(s, Oldest(s));
  }

  lemma ReserveBlocks(s: State, w: nat)
    requires Inv(s) && Can(s, ReserveNext(w))
    ensures var s' := DoReserve(s);
            && Blk(s', Started(s) + 1) == NextBlk(s).(counter := CLEANUP_INITIAL_VAL, inUse := true)
            && forall m {:trigger Blk(s', m)} | InWindow(s, m) && m != Oldest(s) :: Blk(s', m) == Blk(s, m)
  {
    NextIsOldest(s, w);
    var b := NextBlk(s).(counter := CLEANUP_INITIAL_VAL, inUse := true);
    Blocks(s, Oldest(s), b);
    SetBlkFrame(s, Oldest(s), b, Oldest(s));
    var s' := DoReserve(s);
    assert forall m :: Blk(s', m) == Blk(SetBlk(s, Oldest(s), b), m);
    SameSlot(s', Oldest(s));
  }

  lemma ReserveIter(s: State, w: nat, m: int)
    requires Inv(s) && Can(s, ReserveNext(w)) && InWindow(DoReserve(s), m)
    ensures IterOk(DoReserve(s), m)
  {
    NextIsOldest(s, w);
    ReuseIsSafe(s, w);
    ReserveBlocks(s, w);
    if m != Started(s) + 1 { assert IterOk(s, m) && Blk(DoReserve(s), m) == Blk(s, m); }
  }

  lemma ReserveWaits(s: State, w: nat, m: int)
    requires Inv(s) && Can(s, ReserveNext(w)) && 1 <= m <= Started(s)
    ensures WaitsOk(DoReserve(s), m)
  {
    NextIsOldest(s, w);
    ReuseIsSafe(s, w);
    ReserveBlocks(s, w);
    assert WaitsOk(s, m);
    if InWindow(DoReserve(s), m) && !LeftFreed(s, m) {
      LeftIsInWindow(s, m);
    }
  }

  lemma ReserveIters(s: State, w: nat)
    requires Inv(s) && Can(s, ReserveNext(w))
    ensures ItersOk(DoReserve(s))
  {
    var s' := DoReserve(s);
    ReuseIsSafe(s, w);
    NextIsOldest(s, w);
    OldestCounter(s, w);
    forall m | InWindow(s', m) ensures IterOk(s', m) {
      ReserveIter(s, w, m);
    }
    forall m | 1 <= m <= Started(s') ensures WaitsOk(s', m) {
      ReserveWaits(s, w, m);
    }
    forall m | 0 <= m <= s'.reserved - |s'.ring| ensures GoneOk(s', m) {
      if m != Oldest(s) { assert GoneOk(s, m); }
    }
  }

  lemma ReserveWorker(s: State, w: nat, v: nat)
    requires Inv(s) && Can(s, ReserveNext(w)) && v < |s.workers|
    ensures WorkerOk(DoReserve(s), v)
  {
    var s' := DoReserve(s);
    assert WorkerOk(s, v);
    ReuseIsSafe(s, w);
    ReserveBlocks(s, w);
    ControlIsHere(s, w);
    if v != w && HasControl(s.workers[v]) { OneControl(s, v, w); }
    if ResumesThrottled(s.workers[v]) { CountHas(s.workers, v, ResumesThrottled); }
    if s.workers[v].task.RunsIter? {
      assert PhaseOf(s', s.workers[v].task.n) == PhaseOf(s, s.workers[v].task.n);
    }
  }

  lemma ReserveRunners(s: State, w: nat, m: int)
    requires Inv(s) && Can(s, ReserveNext(w)) && 1 <= m <= Started(s)
    ensures RunnersOk(DoReserve(s), m)
  {
    assert RunnersOk(s, m);
    ReuseIsSafe(s, w);
    ReserveBlocks(s, w);
    if InWindow(s, m) && m != Oldest(s) { assert Blk(DoReserve(s), m) == Blk(s, m); }
  }

  lemma ReserveKeepsInv(s: State, w: nat)
    requires Inv(s) && Can(s, ReserveNext(w))
    ensures Inv(DoReserve(s))
  {
    var s' := DoReserve(s);
    ReserveIters(s, w);
    ControlIsHere(s, w);
    forall v: nat | v < |s'.workers| ensures WorkerOk(s', v) {
      ReserveWorker(s, w, v);
    }
    forall m | 1 <= m <= Started(s') ensures RunnersOk(s', m) {
      ReserveRunners(s, w, m);
    }
  }

  // ------------------------------------------------------- starting and stopping

  lemma StopIters(s: State, s': State)
    requires |s.ring| > 0 && ItersOk(s) && s.pc.Next? && s'.pc.Ended?
    requires s'.ring == s.ring && s'.phases == s.phases && s'.reserved == s.reserved
    ensures ItersOk(s') && forall m :: Blk(s', m) == Blk(s, m)
  {
    forall m | InWindow(s', m) ensures IterOk(s', m) {
      assert IterOk(s, m);
    }
    forall m | 1 <= m <= Started(s') ensures WaitsOk(s', m) {
      assert WaitsOk(s, m);
    }
    forall m | 0 <= m <= s'.reserved - |s'.ring| ensures GoneOk(s', m) {
      assert GoneOk(s, m);
    }
  }

  lemma StopKeepsInv(s: State, w: nat)
    requires Inv(s) && Can(s, StopLoop(w))
    ensures Inv(SetWorker(s, w, IDLE).(pc := Ended))
  {
    var s' := SetWorker(s, w, IDLE).(pc := Ended);
    StopIters(s, s');
    ControlMoves(s, s', w, IDLE);
  }

  lemma StartBlocks(s: State, w: nat)
    requires Inv(s) && Can(s, StartIteration(w))
    ensures var s', n := DoStart(s, w), s.reserved;
            && n == Started(s) + 1 == Started(s') && PhaseOf(s', n) == Working(false)
            && Blk(s', n) == Blk(s, n).(status := StandardExec, iterNum := n, stage := FIRST_STAGE, cachedLeft := FIRST_STAGE)
            && (forall m {:trigger Blk(s', m)} | InWindow(s, m) && m != n :: Blk(s', m) == Blk(s, m))
            && (forall m {:trigger PhaseOf(s', m)} | m <= Started(s) :: PhaseOf(s', m) == PhaseOf(s, m))
  {
    var n, s' := s.reserved, DoStart(s, w);
    var b := Blk(s, n).(status := StandardExec, iterNum := n, stage := FIRST_STAGE, cachedLeft := FIRST_STAGE);
    Blocks(s, n, b);
    assert forall m :: Blk(s', m) == Blk(SetBlk(s, n, b), m);
  }

  lemma UnpromotedHoldsControl(s: State, v: nat)
    requires Inv(s) && v < |s.workers| && (s.workers[v].task.RunsIter? || s.workers[v].task.RunsExit?)
    requires Blk(s, s.workers[v].task.n).status.StandardExec?
    ensures s.pc.Spawned? && HasControl(s.workers[v])
  {
    assert WorkerOk(s, v);
  }

  /** At the head of the loop the newest iteration is promoted or done. */
  lemma NewestIsPromoted(s: State, w: nat)
    requires Inv(s) && Can(s, StartIteration(w)) && Started(s) >= 1 && InWindow(s, Started(s))
    ensures Blk(s, Started(s)).status.StandardExec? ==> PhaseOf(s, Started(s)).Done?
  {
    var n := Started(s);
    assert RunnersOk(s, n) && IterOk(s, n);
    if Blk(s, n).status.StandardExec? && !PhaseOf(s, n).Done? {
      var v := CountFinds(s.workers, Runs(n));
      UnpromotedHoldsControl(s, v);
    }
  }

  lemma StartIter(s: State, w: nat, m: int)
    requires Inv(s) && Can(s, StartIteration(w)) && InWindow(s, m)
    ensures IterOk(DoStart(s, w), m)
  {
    StartBlocks(s, w);
    assert IterOk(s, m);
    if m == Started(s) >= 1 { NewestIsPromoted(s, w); }
    assert m <= Started(s) ==> PhaseOf(DoStart(s, w), m) == PhaseOf(s, m);
    assert m + 1 <= Started(s) ==> PhaseOf(DoStart(s, w), m + 1) == PhaseOf(s, m + 1);
    assert m - 1 <= Started(s) ==> PhaseOf(DoStart(s, w), m - 1) == PhaseOf(s, m - 1);
  }

  lemma StartWaits(s: State, w: nat, m: int)
    requires Inv(s) && Can(s, StartIteration(w)) && 1 <= m <= Started(s) + 1
    ensures WaitsOk(DoStart(s, w), m)
  {
    StartBlocks(s, w);
    var s' := DoStart(s, w);
    assert PhaseOf(s', m - 1) == PhaseOf(s, m - 1);
    if m <= Started(s) {
      assert WaitsOk(s, m) && PhaseOf(s', m) == PhaseOf(s, m);
      if InWindow(s, m) && !LeftFreed(s, m) { LeftIsInWindow(s, m); }
    } else {
      assert InWindow(s, m - 1) && IterOk(s, m - 1);
    }
  }

  lemma StartWorker(s: State, w: nat, v: nat)
    requires Inv(s) && Can(s, StartIteration(w)) && v < |s.workers|
    ensures WorkerOk(DoStart(s, w), v)
  {
    StartBlocks(s, w);
    var s' := DoStart(s, w);
    if v != w {
      assert WorkerOk(s, v);
      if HasControl(s.workers[v]) { OneControl(s, v, w); }
      ControlIsHere(s, w);
      if ResumesThrottled(s.workers[v]) { CountHas(s.workers, v, ResumesThrottled); }
      if s.workers[v].task.RunsIter? {
        assert PhaseOf(s', s.workers[v].task.n) == PhaseOf(s, s.workers[v].task.n);
      }
    }
  }

  lemma StartRunners(s: State, w: nat, m: int)
    requires Inv(s) && Can(s, StartIteration(w)) && 1 <= m <= Started(s) + 1
    ensures RunnersOk(DoStart(s, w), m)
  {
    StartBlocks(s, w);
    var s', x := DoStart(s, w), Worker(RunsIter(s.reserved), NoParent, true);
    CountUpdate(s.workers, w, x, Runs(m));
    if m <= Started(s) {
      assert RunnersOk(s, m) && PhaseOf(s', m) == PhaseOf(s, m);
    } else {
      forall v | 0 <= v < |s.workers| ensures !Runs(m)(s.workers[v]) {
        assert WorkerOk(s, v);
      }
      CountNone(s.workers, Runs(m));
    }
  }

  lemma StartKeepsInv(s: State, w: nat)
    requires Inv(s) && Can(s, StartIteration(w))
    ensures Inv(DoStart(s, w))
  {
    var s', x := DoStart(s, w), Worker(RunsIter(s.reserved), NoParent, true);
    ControlIsHere(s, w);
    CountUpdate(s.workers, w, x, HasControl);
    CountUpdate(s.workers, w, x, ResumesThrottled);
    forall m | InWindow(s', m) ensures IterOk(s', m) {
      StartIter(s, w, m);
    }
    forall m | 1 <= m <= Started(s') ensures WaitsOk(s', m) && RunnersOk(s', m) {
      StartWaits(s, w, m);
      StartRunners(s, w, m);
    }
    forall m | 0 <= m <= s'.reserved - |s'.ring| ensures GoneOk(s', m) {
      assert GoneOk(s, m);
      StartBlocks(s, w);
      assert PhaseOf(s', m) == PhaseOf(s, m) && PhaseOf(s', m + 1) == PhaseOf(s, m + 1);
    }
    forall v: nat | v < |s'.workers| ensures WorkerOk(s', v) {
      StartWorker(s, w, v);
    }
  }
}
