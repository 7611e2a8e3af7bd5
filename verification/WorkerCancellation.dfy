/**
  What a cancellation, a deadline, an error or `close` means for an operation, over whole runs: it never
  returns a result any more, and a child it was talking to is discarded before anyone else gets the slot.
*/
module WorkerCancellation {
  import opened Outcomes
  import opened WorkerFraming
  import opened WorkerProcess

  /** The operation can only end in an error. */
  predicate Doomed(phase: Phase) {
    match phase
    case Creating(stopped) => stopped
    case Born(_, stopped) => stopped
    case Discarding => true
    case Ended(result) => result.Err?
    case _ => false
  }

  lemma StopDooms(s: Slot, i: nat)
    requires i < |s.operations| && !s.operations[i].phase.Ended?
    ensures Doomed(WorkerProcess.Stopped(s, i).operations[i].phase)
  {
  }

  lemma CloseDooms(s: Slot, i: nat)
    requires i < |s.operations| && !s.operations[i].phase.Ended?
    ensures |CloseBegun(s).operations| == |s.operations| && Doomed(CloseBegun(s).operations[i].phase)
  {
  }

  /** The step of one operation leaves the others as they are. */
  lemma OthersStay(m: Model, s: Slot, e: Event, i: nat)
    requires Enabled(m, s, e) && i < |s.operations| && Mover(e).Some? && Mover(e).value != i
    ensures i < |After(m, s, e).operations| && After(m, s, e).operations[i] == s.operations[i]
  {
    hide ReadReply, ServedOutput, EncodeReply, ReadyFrame, FreshRequest;
  }

  lemma DoomedMoves(m: Model, s: Slot, e: Event, i: nat)
    requires Enabled(m, s, e) && i < |s.operations| && Doomed(s.operations[i].phase) && Mover(e) == Some(i)
    ensures i < |After(m, s, e).operations| && Doomed(After(m, s, e).operations[i].phase)
  {
    hide ReadReply, ServedOutput, EncodeReply, ReadyFrame, FreshRequest, Started;
  }

  lemma DoomedStays(m: Model, s: Slot, e: Event, i: nat)
    requires Enabled(m, s, e) && i < |s.operations| && Doomed(s.operations[i].phase)
    ensures i < |After(m, s, e).operations| && Doomed(After(m, s, e).operations[i].phase)
  {
    hide ReadReply, ServedOutput, EncodeReply, ReadyFrame, FreshRequest, Started, Acquired, Readied, Replied, Reaped,
      ReapFails, ChildBorn, CreationFails, Adopted;
    if Mover(e) == Some(i) {
      DoomedMoves(m, s, e, i);
    } else if Mover(e).Some? {
      OthersStay(m, s, e, i);
    }
  }

  /**
    An operation that is stopped, or is under way when `close` is called, never ends in a result, in
    whatever phase it was.
  */
  lemma {:induction false} StoppedNeverSucceeds(m: Model, run: seq<Slot>, events: seq<Event>, n: nat, i: nat,
      later: nat)
    requires Run(m, run, events) && n < |events| && n < later < |run|
    requires events[n] == Stop(i) || events[n] == BeginClose
    requires i < |run[n].operations| && !run[n].operations[i].phase.Ended?
    ensures i < |run[later].operations| && Doomed(run[later].operations[i].phase)
    ensures forall result :: run[later].operations[i].phase != Ended(Ok(result))
  {
    hide ReadReply, ServedOutput, EncodeReply, ReadyFrame, FreshRequest, Model.Valid, StoppedPhase;
    if later == n + 1 {
      assert Enabled(m, run[n], events[n]) && run[n + 1] == After(m, run[n], events[n]);
      if events[n] == Stop(i) {
        StopDooms(run[n], i);
      } else {
        CloseDooms(run[n], i);
      }
    } else {
      StoppedNeverSucceeds(m, run, events, n, i, later - 1);
      hide Enabled, After, Doomed;
      assert Enabled(m, run[later - 1], events[later - 1]) && run[later] == After(m, run[later - 1], events[later - 1]);
      DoomedStays(m, run[later - 1], events[later - 1], i);
      DoomedHasNoResult(run[later].operations[i].phase);
    }
  }

  lemma DoomedHasNoResult(phase: Phase)
    requires Doomed(phase)
    ensures forall result :: phase != Ended(Ok(result))
  {
  }

  // ----- the child of a stopped operation -----

  /** The operation is getting rid of this child, with the lock. */
  ghost predicate Rids(s: Slot, i: nat, child: nat) {
    && i < |s.operations| && s.operations[i].phase == Discarding && s.holder == Held(i)
    && s.process.Some? && s.process.value.id == child
  }

  /** The end of it: reaped, or given up. */
  predicate EndsRidding(e: Event, i: nat) {
    (e.Reap? && e.op == i) || (e.NoReap? && e.op == i)
  }

  lemma RiddingGoesOn(m: Model, s: Slot, e: Event, i: nat, child: nat)
    requires LockFits(s) && ChildrenFit(s) && Enabled(m, s, e) && Rids(s, i, child) && !EndsRidding(e, i)
    ensures Rids(After(m, s, e), i, child)
  {
    hide ReadReply, ServedOutput, EncodeReply, ReadyFrame, FreshRequest;
    match e {
      case Stop(k) =>
      case BeginClose =>
      case _ =>
    }
  }

  lemma RiddingEnds(m: Model, s: Slot, e: Event, i: nat, child: nat)
    requires Enabled(m, s, e) && Rids(s, i, child) && EndsRidding(e, i)
    ensures
      var s' := After(m, s, e);
      && s'.holder == Free && i < |s'.operations| && s'.operations[i].phase.Ended? && s'.operations[i].phase.result.Err?
      && (e.Reap? ==> s'.process == None && child !in s'.alive && (s'.scratchEmpty || s'.closed))
      && (e.NoReap? ==> s'.closed)
  {
  }

  /**
    An operation that is stopped while it waits for its child discards that child: it keeps the lock
    with the child recorded until the child is reaped or reaping has failed, so no other operation can
    use or replace it. Reaped, the child is gone and the scratch directory clear or the slot closed;
    not reaped, the slot is closed.
  */
  lemma {:induction false} StoppedChildIsDiscarded(
      m: Model, run: seq<Slot>, events: seq<Event>, n: nat, i: nat, later: nat)
    requires Run(m, run, events) && n < |events| && n < later < |run|
    requires events[n] == Stop(i) || events[n] == BeginClose
    requires i < |run[n].operations|
             && (run[n].operations[i].phase.AwaitReady? || run[n].operations[i].phase.AwaitReply?)
    requires forall k :: n < k < later ==> !EndsRidding(events[k], i)
    ensures run[n].process.Some? && Rids(run[later], i, run[n].process.value.id)
    ensures later < |events| && EndsRidding(events[later], i) ==>
              var s' := run[later + 1];
              && s'.holder == Free && i < |s'.operations| && s'.operations[i].phase.Ended?
              && s'.operations[i].phase.result.Err?
              && (events[later].Reap? ==>
                    s'.process == None && run[n].process.value.id !in s'.alive && (s'.scratchEmpty || s'.closed))
              && (events[later].NoReap? ==> s'.closed)
  {
    hide Enabled, After, LockFits, ChildrenFit, RequestsFit, OpenWhileWorking, PipesFit, Rids, EndsRidding, Model.Valid;
    EveryRunKeepsInv(m, run, events, n);
    assert Enabled(m, run[n], events[n]) && run[n + 1] == After(m, run[n], events[n]);
    StopBeginsRidding(m, run[n], events[n], i);
    var child := run[n].process.value.id;
    if later != n + 1 {
      StoppedChildIsDiscarded(m, run, events, n, i, later - 1);
      EveryRunKeepsInv(m, run, events, later - 1);
      assert Enabled(m, run[later - 1], events[later - 1]) && run[later] == After(m, run[later - 1], events[later - 1]);
      RiddingGoesOn(m, run[later - 1], events[later - 1], i, child);
    }
    if later < |events| && EndsRidding(events[later], i) {
      assert Enabled(m, run[later], events[later]) && run[later + 1] == After(m, run[later], events[later]);
      RiddingEnds(m, run[later], events[later], i, child);
    }
  }

  lemma StopBeginsRidding(m: Model, s: Slot, e: Event, i: nat)
    requires LockFits(s) && ChildrenFit(s) && Enabled(m, s, e) && (e == Stop(i) || e == BeginClose)
    requires i < |s.operations| && (s.operations[i].phase.AwaitReady? || s.operations[i].phase.AwaitReply?)
    ensures s.process.Some? && Rids(After(m, s, e), i, s.process.value.id)
  {
    assert Busy(s.operations[i].phase);
  }
}
