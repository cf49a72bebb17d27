/** What a step leaves alone. A step is made by one worker for one iteration n
    and reaches no further than the blocks next to n's. */
module PiperFrames {
  import opened PiperState
  import opened PiperSteps

  // ------------------------------------------------------------------ iterations

  predicate SameTimes(b: Block, b': Block) {
    b'.stage == b.stage && b'.cachedLeft == b.cachedLeft
  }

  /** Only iteration n has moved, only the blocks of n - 1 .. n + 1 may have
      changed, and only n's has another stage or another cached stage. */
  ghost predicate OnlyNear(s: State, s': State, n: int) {
    && 1 <= n <= Started(s) == Started(s') && InWindow(s, n)
    && |s'.ring| == |s.ring| >= 2 && s'.reserved == s.reserved && s'.pc == s.pc
    && (forall m {:trigger Blk(s', m)} | InWindow(s, m) && m != n - 1 && m != n && m != n + 1 :: Blk(s', m) == Blk(s, m))
    && (forall m {:trigger Blk(s', m)} | InWindow(s, m) && m != n :: SameTimes(Blk(s, m), Blk(s', m)))
    && (forall m {:trigger PhaseOf(s', m)} | m <= Started(s) && m != n :: PhaseOf(s', m) == PhaseOf(s, m))
    && (FreedLeft(PhaseOf(s, n)) ==> FreedLeft(PhaseOf(s', n))) && (PhaseOf(s, n).Done? ==> PhaseOf(s', n).Done?)
    && (StageDone(PhaseOf(s, n)) ==> StageDone(PhaseOf(s', n)))
  }

  lemma FarIter(s: State, s': State, n: int, m: int)
    requires OnlyNear(s, s', n) && InWindow(s, m) && IterOk(s, m) && m != n - 1 && m != n && m != n + 1
    ensures IterOk(s', m)
  {
    assert Blk(s', m) == Blk(s, m);
    assert m <= Started(s) ==> PhaseOf(s', m) == PhaseOf(s, m);
    assert m - 1 <= Started(s) ==> PhaseOf(s', m - 1) == PhaseOf(s, m - 1);
    assert m + 1 <= Started(s) ==> PhaseOf(s', m + 1) == PhaseOf(s, m + 1);
  }

  lemma FarWaits(s: State, s': State, n: int, m: int)
    requires OnlyNear(s, s', n) && 1 <= m <= Started(s) && WaitsOk(s, m) && m != n && m != n + 1
    requires forall g | 0 <= g <= s.reserved - |s.ring| :: GoneOk(s, g)
    ensures WaitsOk(s', m)
  {
    assert PhaseOf(s', m) == PhaseOf(s, m) && PhaseOf(s', m - 1) == PhaseOf(s, m - 1);
    if InWindow(s, m) {
      assert SameTimes(Blk(s, m), Blk(s', m));
      if !LeftFreed(s', m) {
        LeftIsInWindow(s, m);
        assert SameTimes(Blk(s, m - 1), Blk(s', m - 1));
      }
    }
  }

  /** An iteration that has not freed its left block still has it. */
  lemma LeftIsInWindow(s: State, n: int)
    requires forall g | 0 <= g <= s.reserved - |s.ring| :: GoneOk(s, g)
    requires InWindow(s, n) && 1 <= n && !LeftFreed(s, n)
    ensures InWindow(s, n - 1)
  {
    assert 0 <= n - 1 <= s.reserved - |s.ring| ==> GoneOk(s, n - 1);
  }

  /** An iteration none of whose concerns has changed. */
  lemma IterStays(s: State, s': State, m: int)
    requires |s'.ring| == |s.ring| > 0 && s'.reserved == s.reserved && s'.pc == s.pc && Started(s') == Started(s)
    requires IterOk(s, m) && Blk(s', m) == Blk(s, m)
    requires m <= Started(s) ==> PhaseOf(s', m) == PhaseOf(s, m) && PhaseOf(s', m - 1) == PhaseOf(s, m - 1)
    requires m + 1 <= Started(s) ==> PhaseOf(s', m + 1) == PhaseOf(s, m + 1)
    ensures IterOk(s', m)
  {
  }

  /** What is to be shown of a step on iteration n. */
  lemma NearIters(s: State, s': State, n: int)
    requires OnlyNear(s, s', n) && ItersOk(s)
    requires IterOk(s', n) && (InWindow(s, n - 1) ==> IterOk(s', n - 1)) && (InWindow(s, n + 1) ==> IterOk(s', n + 1))
    requires WaitsOk(s', n) && (n + 1 <= Started(s) ==> WaitsOk(s', n + 1))
    ensures ItersOk(s')
  {
    forall m | InWindow(s', m) ensures IterOk(s', m) {
      if m != n - 1 && m != n && m != n + 1 {
        assert IterOk(s, m);
        FarIter(s, s', n, m);
      }
    }
    forall m | 1 <= m <= Started(s') ensures WaitsOk(s', m) {
      if m != n && m != n + 1 {
        assert WaitsOk(s, m);
        FarWaits(s, s', n, m);
      }
    }
    forall g | 0 <= g <= s'.reserved - |s'.ring| ensures GoneOk(s', g) {
      assert GoneOk(s, g);
      assert PhaseOf(s', g) == PhaseOf(s, g) || g == n;
      assert PhaseOf(s', g + 1) == PhaseOf(s, g + 1) || g + 1 == n;
    }
  }

  lemma ItersIgnoreWorkers(s: State, s': State)
    requires |s.ring| > 0 && ItersOk(s)
    requires s'.ring == s.ring && s'.phases == s.phases && s'.reserved == s.reserved && s'.pc == s.pc
    ensures ItersOk(s')
  {
    forall m | InWindow(s', m) ensures IterOk(s', m) {
      assert IterOk(s, m);
    }
    forall m | 1 <= m <= Started(s') ensures WaitsOk(s', m) {
      assert WaitsOk(s, m);
    }
    forall m | 0 <= m <= s'.reserved - |s'.ring| ensures GoneOk(s', m) {
      assert GoneOk(s, m);
    }
  }

  lemma NearIgnoresWorkers(s: State, g: State, s': State, n: int)
    requires OnlyNear(s, g, n)
    requires s'.ring == g.ring && s'.phases == g.phases && s'.reserved == g.reserved && s'.pc == g.pc
    ensures OnlyNear(s, s', n) && forall m :: Blk(s', m) == Blk(g, m)
  {
    assert forall m :: Blk(s', m) == Blk(g, m);
    assert forall m | m <= Started(s') :: PhaseOf(s', m) == PhaseOf(g, m);
  }

  // --------------------------------------------------------------------- workers

  lemma OneRunner(s: State, v: nat, w: nat, n: int)
    requires |s.ring| > 0 && 1 <= n <= Started(s) && RunnersOk(s, n)
    requires v < |s.workers| && w < |s.workers| && Runs(n)(s.workers[v]) && Runs(n)(s.workers[w])
    ensures v == w
  {
    if v < w { CountHasTwo(s.workers, v, w, Runs(n)); }
    if w < v { CountHasTwo(s.workers, w, v, Runs(n)); }
  }

  lemma NoRunner(s: State, w: nat, n: int)
    requires |s.ring| > 0 && 1 <= n <= Started(s) && RunnersOk(s, n) && w < |s.workers|
    requires !(InWindow(s, n) && IsActive(s, n))
    ensures !Runs(n)(s.workers[w])
  {
    if Runs(n)(s.workers[w]) { CountHas(s.workers, w, Runs(n)); }
  }

  lemma OneControl(s: State, v: nat, w: nat)
    requires |s.ring| > 0 && ControlOk(s)
    requires v < |s.workers| && w < |s.workers| && HasControl(s.workers[v]) && HasControl(s.workers[w])
    ensures v == w
  {
    if v < w { CountHasTwo(s.workers, v, w, HasControl); }
    if w < v { CountHasTwo(s.workers, w, v, HasControl); }
  }

  lemma ControlIsHere(s: State, w: nat)
    requires |s.ring| > 0 && ControlOk(s) && w < |s.workers| && HasControl(s.workers[w])
    ensures !s.pc.Blocked? && !s.pc.Ended?
    ensures Count(s.workers, HasControl) == 1 && Count(s.workers, ResumesThrottled) == 0
  {
    CountHas(s.workers, w, HasControl);
  }

  /** A worker that did not move, running an iteration whose status is as before. */
  lemma OtherWorker(s: State, s': State, n: int, v: nat)
    requires OnlyNear(s, s', n) && v < |s.workers| && v < |s'.workers| && WorkerOk(s, v) && s'.workers[v] == s.workers[v]
    requires !Runs(n)(s.workers[v])
    requires s.workers[v].task.RunsIter? ==> Blk(s', s.workers[v].task.n).status == Blk(s, s.workers[v].task.n).status
    ensures WorkerOk(s', v)
  {
    var x := s.workers[v];
    if x.task.RunsIter? {
      assert PhaseOf(s', x.task.n) == PhaseOf(s, x.task.n);
      assert x.task.n - 1 != n ==> PhaseOf(s', x.task.n - 1) == PhaseOf(s, x.task.n - 1);
    }
    if x.task.RunsExit? {
      assert PhaseOf(s', x.task.n) == PhaseOf(s, x.task.n);
    }
  }

  // ------------------------------------------------------------------- quiet steps

  predicate SamePart(p: Phase, p': Phase) {
    && FreedLeft(p') == FreedLeft(p) && p'.Done? == p.Done?
    && (p.Working? || p.Leaving? || p.FinFreedLeft? || p.FinStaged? ==> p'.Working? || p'.Leaving? || p'.FinFreedLeft? || p'.FinStaged?)
    && (p.ExitPopped? || p.ExitStaged? || p.ExitFreedLeft? ==> p'.ExitPopped? || p'.ExitStaged? || p'.ExitFreedLeft?)
    && (p.FinFreedLeft? || p.FinStaged? <==> p'.FinFreedLeft? || p'.FinStaged?)
    && (StageDone(p) ==> StageDone(p'))
  }

  /** A step that only moves stage counters and the place of iteration n in its code. */
  ghost predicate Quiet(s: State, s': State, n: int) {
    && OnlyNear(s, s', n) && s'.workers == s.workers && s'.resume == s.resume
    && (forall m {:trigger Blk(s', m)} | InWindow(s, m) && m != n :: Blk(s', m) == Blk(s, m))
    && Blk(s', n) == Blk(s, n).(stage := Blk(s', n).stage, cachedLeft := Blk(s', n).cachedLeft)
    && SamePart(PhaseOf(s, n), PhaseOf(s', n))
  }

  lemma QuietWorker(s: State, s': State, n: int, v: nat)
    requires Quiet(s, s', n) && v < |s.workers| && WorkerOk(s, v)
    ensures WorkerOk(s', v)
  {
    var x := s.workers[v];
    if x.task.RunsIter? {
      assert Blk(s', x.task.n).status == Blk(s, x.task.n).status;
      assert x.task.n != n ==> PhaseOf(s', x.task.n) == PhaseOf(s, x.task.n);
      assert x.task.n - 1 != n ==> PhaseOf(s', x.task.n - 1) == PhaseOf(s, x.task.n - 1);
    }
    if x.task.RunsExit? {
      assert x.task.n != n ==> PhaseOf(s', x.task.n) == PhaseOf(s, x.task.n);
    }
  }

  lemma QuietWorkers(s: State, s': State, n: int)
    requires Shape(s) && Quiet(s, s', n) && WorkersOk(s)
    ensures Shape(s') && WorkersOk(s')
  {
    forall v: nat | v < |s'.workers| ensures WorkerOk(s', v) {
      assert WorkerOk(s, v);
      QuietWorker(s, s', n, v);
    }
    forall m | 1 <= m <= Started(s') ensures RunnersOk(s', m) {
      assert RunnersOk(s, m);
      assert m != n ==> PhaseOf(s', m) == PhaseOf(s, m);
      if InWindow(s, m) { assert Blk(s', m).status == Blk(s, m).status; }
    }
    var next := Started(s) + 1 - |s.ring|;
    if s.pc.Blocked? || s.pc.Past? {
      assert InWindow(s, next) && Blk(s', next).counter == Blk(s, next).counter;
    }
  }

  lemma QuietNeighbour(s: State, s': State, n: int, m: int)
    requires Inv(s) && Quiet(s, s', n) && InWindow(s, m) && (m == n - 1 || m == n + 1)
    requires n + 1 <= Started(s) && StageFinallyDone(PhaseOf(s', n)) ==> StageFinallyDone(PhaseOf(s, n))
    ensures IterOk(s', m)
  {
    assert IterOk(s, m) && Blk(s', m) == Blk(s, m);
    assert m <= Started(s) ==> PhaseOf(s', m) == PhaseOf(s, m);
    assert m - 1 <= Started(s) && m - 1 != n ==> PhaseOf(s', m - 1) == PhaseOf(s, m - 1);
    assert m + 1 <= Started(s) && m + 1 != n ==> PhaseOf(s', m + 1) == PhaseOf(s, m + 1);
  }

  /** What is left to show of a quiet step. */
  lemma QuietStep(s: State, s': State, n: int)
    requires Inv(s) && Quiet(s, s', n)
    requires StageOk(PhaseOf(s', n), Blk(s', n).stage)
    requires Blk(s, n).status.PromotedSuspended? ==> PhaseOf(s', n) == Working(true)
    requires WaitsOk(s', n) && (n + 1 <= Started(s) ==> WaitsOk(s', n + 1))
    requires n + 1 <= Started(s) && StageFinallyDone(PhaseOf(s', n)) ==> StageFinallyDone(PhaseOf(s, n))
    ensures Inv(s')
  {
    assert IterOk(s, n) && PhaseOf(s', n - 1) == PhaseOf(s, n - 1);
    assert n + 1 <= Started(s) ==> PhaseOf(s', n + 1) == PhaseOf(s, n + 1);
    if InWindow(s, n - 1) { QuietNeighbour(s, s', n, n - 1); }
    if InWindow(s, n + 1) { QuietNeighbour(s, s', n, n + 1); }
    NearIters(s, s', n);
    QuietWorkers(s, s', n);
  }

  // ------------------------------------------------------ steps that move a worker

  /** What happens to the runners of iteration m when a worker turns to x. */
  predicate RunnerMoves(s: State, s': State, x: Worker, m: int)
    requires |s.ring| > 0 && |s'.ring| > 0 && 1 <= m <= Started(s) == Started(s')
  {
    && (IsActive(s', m) <==> IsActive(s, m) || Runs(m)(x))
    && (Runs(m)(x) ==> !IsActive(s, m))
    && (IsActive(s, m) ==> Blk(s', m).status == Blk(s, m).status)
  }

  predicate ThrottleDue(s: State)
    requires |s.ring| > 0
  {
    s.pc.Blocked? && Blk(s, Started(s) + 1 - |s.ring|).counter == 0
  }

  /** Worker w, which runs iteration n, turns to x. */
  ghost predicate Moves(s: State, s': State, n: int, w: nat, x: Worker) {
    && OnlyNear(s, s', n) && w < |s.workers| && s'.workers == s.workers[w := x] && Runs(n)(s.workers[w])
    && (Runs(n)(x) <==> IsActive(s', n))
    && (forall m {:trigger RunnerMoves(s, s', x, m)} | InWindow(s, m) && 1 <= m <= Started(s) && m != n :: RunnerMoves(s, s', x, m))
    && (forall m {:trigger Runs(m)} | Runs(m)(x) :: InWindow(s, m))
  }

  /** The control frame is where it was, and the worker is told to resume a
      suspended control frame exactly if that has become possible. */
  ghost predicate Balanced(s: State, s': State, w: nat, x: Worker)
    requires |s.ring| > 0 && |s'.ring| > 0 && w < |s.workers| && w < |s'.workers|
  {
    && s'.pc == s.pc && s'.resume == s.resume && WorkerOk(s', w)
    && (HasControl(x) <==> HasControl(s.workers[w]))
    && ((if ResumesThrottled(x) then 1 else 0) - (if ResumesThrottled(s.workers[w]) then 1 else 0)
        == (if ThrottleDue(s') then 1 else 0) - (if ThrottleDue(s) then 1 else 0))
    && (s.pc.Past? ==> Blk(s', Started(s) + 1 - |s.ring|).counter == 0)
  }

  lemma MovesOthers(s: State, s': State, n: int, w: nat, x: Worker, v: nat)
    requires Inv(s) && Moves(s, s', n, w, x) && v < |s.workers| && v != w
    ensures WorkerOk(s', v)
  {
    assert WorkerOk(s, v) && RunnersOk(s, n);
    if Runs(n)(s.workers[v]) {
      OneRunner(s, v, w, n);
    }
    if s.workers[v].task.RunsIter? {
      var m := s.workers[v].task.n;
      assert RunnersOk(s, m) && RunnerMoves(s, s', x, m);
      if !IsActive(s, m) { NoRunner(s, v, m); }
    }
    OtherWorker(s, s', n, v);
  }

  lemma MovesRunners(s: State, s': State, n: int, w: nat, x: Worker, m: int)
    requires Inv(s) && Moves(s, s', n, w, x) && 1 <= m <= Started(s)
    ensures RunnersOk(s', m)
  {
    assert RunnersOk(s, m) && WorkerOk(s, w) && RunnersOk(s, n);
    CountUpdate(s.workers, w, x, Runs(m));
    if m == n {
      CountHas(s.workers, w, Runs(n));
    } else if InWindow(s, m) {
      assert RunnerMoves(s, s', x, m);
    }
  }

  lemma MoverStep(s: State, s': State, n: int, w: nat, x: Worker)
    requires Inv(s) && Moves(s, s', n, w, x) && Balanced(s, s', w, x) && ItersOk(s')
    ensures Inv(s')
  {
    forall v: nat | v < |s'.workers| ensures WorkerOk(s', v) {
      if v != w { MovesOthers(s, s', n, w, x, v); }
    }
    forall m | 1 <= m <= Started(s') ensures RunnersOk(s', m) {
      MovesRunners(s, s', n, w, x, m);
    }
    CountUpdate(s.workers, w, x, HasControl);
    CountUpdate(s.workers, w, x, ResumesThrottled);
  }

  // ------------------------------------------------- releasing the control frame

  predicate Released(s: State, s': State) {
    && s'.ring == s.ring && s'.phases == s.phases && s'.reserved == s.reserved && s'.workers == s.workers
    && s.pc.Blocked? && s'.pc.Past?
  }

  lemma ItersReleased(s: State, s': State)
    requires |s.ring| > 0 && ItersOk(s) && Released(s, s')
    ensures ItersOk(s')
  {
    forall m | InWindow(s', m) ensures IterOk(s', m) {
      assert IterOk(s, m);
    }
    forall m | 1 <= m <= Started(s') ensures WaitsOk(s', m) {
      assert WaitsOk(s, m);
    }
    forall m | 0 <= m <= s'.reserved - |s'.ring| ensures GoneOk(s', m) {
      assert GoneOk(s, m);
    }
  }

  /** A worker that is not concerned. */
  lemma BystanderReleased(s: State, s': State, v: nat)
    requires |s.ring| > 0 && Released(s, s') && v < |s.workers| && WorkerOk(s, v) && !ResumesThrottled(s.workers[v])
    ensures WorkerOk(s', v)
  {
  }

  /** Worker w, which ran iteration n, resumes the control frame that was
      suspended at the throttle; mid is the state but for the release. */
  lemma ReleaseStep(s: State, mid: State, s': State, n: int, w: nat)
    requires Inv(s) && Moves(s, mid, n, w, RUNNING_CONTROL) && ItersOk(mid)
    requires Released(mid, s') && s'.resume.ResumingControl?
    requires Count(s.workers, ResumesThrottled) == if ResumesThrottled(s.workers[w]) then 1 else 0
    requires Blk(mid, Started(s) + 1 - |s.ring|).counter == 0
    ensures Inv(s')
  {
    ItersReleased(mid, s');
    CountUpdate(s.workers, w, RUNNING_CONTROL, HasControl);
    CountUpdate(s.workers, w, RUNNING_CONTROL, ResumesThrottled);
    forall v: nat | v < |s'.workers| ensures WorkerOk(s', v) {
      if v != w {
        MovesOthers(s, mid, n, w, RUNNING_CONTROL, v);
        if ResumesThrottled(mid.workers[v]) { CountHas(mid.workers, v, ResumesThrottled); }
        BystanderReleased(mid, s', v);
      }
    }
    forall m | 1 <= m <= Started(s') ensures RunnersOk(s', m) {
      MovesRunners(s, mid, n, w, RUNNING_CONTROL, m);
      assert RunnersOk(mid, m);
    }
    if HasControl(s.workers[w]) { ControlIsHere(s, w); }
  }
}
