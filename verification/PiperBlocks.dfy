/** The ring of blocks in memory, and the functions that write to it. */
module PiperBlocks {
  import opened PiperState
  import opened PiperSteps
  import opened PiperThrottle
  import opened PiperRuns

  const UNUSED := Block(0, false, Finished, 0, 0, 0)

  class IterationBlocks {
    const ring: array<Block>

    /** Sets up the ring: a finished iteration 0 in slot 0, slot 1 reserved for
        iteration 1, the rest free. */
    constructor (bufferSize: nat)
      requires bufferSize >= 2
      ensures fresh(ring) && ring.Length == bufferSize && IsFreshRing(ring[..])
    {
      ring := new Block[bufferSize](_ => UNUSED);
      new;
      for i := 0 to bufferSize
        invariant forall j | 0 <= j < i :: ring[j].status.Finished? && !ring[j].inUse
      {
        ring[i] := ring[i].(status := Finished, inUse := false);
      }
      ring[0] := ring[0].(counter := CLEANUP_THROTTLE_VAL + CLEANUP_FINISH_ITER_VAL);
      ring[1] := ring[1].(counter := CLEANUP_INITIAL_VAL);
      for i := 2 to bufferSize
        invariant ring[0].counter == CLEANUP_THROTTLE_VAL + CLEANUP_FINISH_ITER_VAL && ring[1].counter == CLEANUP_INITIAL_VAL
        invariant forall j | 0 <= j < bufferSize :: ring[j].status.Finished? && !ring[j].inUse
        invariant forall j | 2 <= j < i :: ring[j].counter == CLEANUP_THROTTLE_VAL
      {
        ring[i] := ring[i].(counter := CLEANUP_THROTTLE_VAL);
      }
      ring[0] := ring[0].(iterNum := 0, stage := FINISH_STAGE, inUse := true, status := StandardExec);
      ring[1] := ring[1].(inUse := true);
    }

    /** One of the two users of a block is done with it. A worker on the path of
        a promoted iteration passes its parent_resume flag and gets it back. */
    method TryFreeIterDataBlock(i: nat, promoted: bool, parent: ParentResume) returns (freed: bool, flag: ParentResume)
      requires i < ring.Length && ring[i].inUse && ring[i].counter >= CLEANUP_FINISH_ITER_VAL
      requires !promoted ==> ring[i].counter > CLEANUP_FINISH_ITER_VAL
      requires ring[i].status.PromotedActive? || ring[i].status.StandardExec?
      modifies ring
      ensures ring[..] == old(ring[..])[i := Freed(old(ring[i]))]
      ensures flag == Flagged(ring[i], parent) && freed == !ring[i].inUse
    {
      flag := parent;
      freed := false;
      ring[i] := ring[i].(counter := ring[i].counter - CLEANUP_FINISH_ITER_VAL);
      if promoted {
        if ReadyToResumeAfterThrottle(ring[i]) {
          flag := ThrottleSuspend;
        }
      }
      if ReadyForReuse(ring[i]) {
        ring[i] := ring[i].(status := Finished, inUse := false);
        freed := true;
      }
    }

    /** The block that iteration n uses. */
    ghost predicate IsSlot(s: State, i: nat, n: int)
      reads ring
    {
      |s.ring| > 0 && ring[..] == s.ring && i == Slot(|s.ring|, n)
    }

    /** The fast path of the throttle; the caller suspends if it fails. Control has
        reached the throttle point in state s. */
    method TryPassThrottle(i: nat, ghost s: State, ghost w: nat) returns (trySuspend: bool)
      requires Inv(s) && Can(s, Throttle(w)) && IsSlot(s, i, Started(s) + 1)
      modifies ring
      ensures ring[..] == Do(s, Throttle(w)).ring && trySuspend == Do(s, Throttle(w)).pc.Slow?
      ensures !trySuspend ==> ring[i].counter == 0
    {
      if ReadyForReuse(ring[i]) {
        ThrottleCrosses(s, w);
        ring[i] := ring[i].(counter := ring[i].counter - CLEANUP_THROTTLE_VAL);
        trySuspend := false;
      } else {
        trySuspend := true;
      }
    }

    /** Control is past the throttle in state s and takes the block for the next
        iteration. */
    method ResetForNewIteration(i: nat, ghost s: State, ghost w: nat)
      requires Inv(s) && Can(s, ReserveNext(w)) && IsSlot(s, i, Started(s) + 1)
      modifies ring
      ensures old(ring[i]).counter == 0 && !old(ring[i]).inUse
      ensures ring[..] == Do(s, ReserveNext(w)).ring
    {
      ReuseIsSafe(s, w);
      ring[i] := ring[i].(counter := CLEANUP_INITIAL_VAL);
      ring[i] := ring[i].(inUse := true);
    }

    /** The next iteration starts in state s, in the block that was taken for it. */
    method InitIterFrame(i: nat, iterNum: int, ghost s: State, ghost w: nat)
      requires Inv(s) && Can(s, StartIteration(w)) && IsSlot(s, i, s.reserved) && iterNum == s.reserved
      modifies ring
      ensures old(ring[i]).inUse && old(ring[i]).status.Finished? && old(ring[i]).counter == CLEANUP_INITIAL_VAL
      ensures ring[..] == Do(s, StartIteration(w)).ring
    {
      assert IterOk(s, s.reserved);
      ring[i] := ring[i].(status := StandardExec);
      ring[i] := ring[i].(iterNum := iterNum, stage := FIRST_STAGE);
      ring[i] := ring[i].(cachedLeft := FIRST_STAGE);
    }
  }
}
