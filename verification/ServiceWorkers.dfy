/**
  The service together with the slots it drives. `Sidecar` knows a worker only by a summary and
  says what may become of it; here every worker is a slot of `WorkerProcess`, and what the service
  sees of a slot is shown to be a step that `Sidecar` allows.
*/
module ServiceWorkers {
  import opened Outcomes
  import S = Sidecar
  import W = WorkerProcess
  import F = WorkerFraming

  datatype Joint = Joint(service: S.State, slots: seq<W.Slot>)

  datatype Event = Service(step: S.Event) | Worker(w: nat, e: W.Event)

  /** What the service can tell of a slot. */
  function Summary(slot: W.Slot): S.WorkerState {
    S.WorkerState(slot.process.Some?, slot.closed)
  }

  // ----- steps -----

  /** A call on a worker returns only when its operation is over, so only then does the service let go of it. */
  ghost predicate CallsReturned(j: Joint, e: S.Event)
    requires S.Enabled(j.service, e)
  {
    forall w :: 0 <= w < |j.slots| && S.InUse(j.service, w) && !S.InUse(S.After(j.service, e), w) ==>
      W.AllEnded(j.slots[w])
  }

  /** The last operation of the slot has returned a result. */
  ghost predicate Succeeded(slot: W.Slot) {
    slot.operations != []
    && var phase := slot.operations[|slot.operations| - 1].phase;
       phase.Ended? && phase.result.Ok?
  }

  /** The worker whose call has returned normally with this step. */
  ghost predicate ReportsSuccess(s: S.State, e: S.Event, w: nat) {
    match e
    case WorkerReady => w == s.loaded
    case Deliver(i) => i < |s.requests| && s.requests[i] == S.Running(w)
    case FinishRecovery(i) => i < |s.recoveries| && s.recoveries[i].worker == w
    case _ => false
  }

  ghost predicate SuccessIsReal(j: Joint, e: S.Event) {
    forall w :: 0 <= w < |j.slots| && ReportsSuccess(j.service, e, w) ==> Succeeded(j.slots[w])
  }

  /** The steps of the service itself; what becomes of a worker is for its slot to say. */
  ghost predicate ServiceEnabled(j: Joint, e: S.Event) {
    && !e.WorkerChanges? && !e.WorkerClosed? && S.Enabled(j.service, e)
    && CallsReturned(j, e) && SuccessIsReal(j, e)
  }

  /** Only a user of a worker calls it, one call at a time, and only the closing task closes it, once. */
  ghost predicate WorkerEnabled(m: W.Model, j: Joint, w: nat, e: W.Event) {
    && w < |j.slots| && W.Enabled(m, j.slots[w], e)
    && (e.Call? ==> S.InUse(j.service, w) && W.AllEnded(j.slots[w]))
    && (e.BeginClose? ==> j.service.closing.ClosingWorkers? && j.slots[w].closer == W.NotClosing)
  }

  /** What a step of a slot is to the service: the return of `close`, a change it can tell, or nothing. */
  function Seen(w: nat, before: W.Slot, after: W.Slot): Option<S.Event> {
    if after.closer.Closed? && after.closer != before.closer then Some(S.WorkerClosed(w, after.closer.ok))
    else if after.closer == W.NotClosing && Summary(after) != Summary(before) then
      Some(S.WorkerChanges(w, Summary(after)))
    else None
  }

  /** The service follows a slot; where `Sidecar` would not allow that, nothing at all is assumed of it. */
  ghost predicate Follows(s: S.State, s': S.State, seen: Option<S.Event>) {
    if seen.None? then s' == s
    else S.Enabled(s, seen.value) ==> s' == S.After(s, seen.value)
  }

  ghost predicate Step(m: W.Model, j: Joint, j': Joint, event: Event) {
    match event
    case Service(e) => ServiceEnabled(j, e) && j' == Joint(S.After(j.service, e), j.slots)
    case Worker(w, e) =>
      && WorkerEnabled(m, j, w, e)
      && var after := W.After(m, j.slots[w], e);
         j'.slots == j.slots[w := after] && Follows(j.service, j'.service, Seen(w, j.slots[w], after))
  }

  ghost predicate Run(m: W.Model, run: seq<Joint>, events: seq<Event>) {
    && m.Valid() && |run| == |events| + 1
    && (exists n: nat :: n > 0 && run[0] == Joint(S.Initial(n), seq(n, i => W.NewSlot())))
    && forall i :: 0 <= i < |events| ==> Step(m, run[i], run[i + 1], events[i])
  }

  // ----- the invariant -----

  /** How far the slot and the closing task have come with each other. */
  ghost predicate CloseFits(s: S.State, w: nat, slot: W.Slot) {
    && (slot.closer != W.NotClosing ==> S.Progress(s.closing) >= 5)
    && (s.closing.ClosingWorkers? ==>
          && (w in s.closing.done <==> slot.closer.Closed?)
          && (w in s.closing.done && s.closing.ok ==> W.Dead(slot)))
    && (s.closing.ClosingOver? ==> slot.closer.Closed? && (s.closing.ok ==> W.Dead(slot)))
  }

  /** Until it is being closed, a slot is what the service takes it for, and nobody but its user is at work in it. */
  ghost predicate UseFits(s: S.State, w: nat, slot: W.Slot) {
    slot.closer == W.NotClosing ==>
      w < |s.workers| && s.workers[w] == Summary(slot) && (S.InUse(s, w) || W.AllEnded(slot))
  }

  /** Calls come one after the other, and a slot whose last call has succeeded is open and has a child. */
  ghost predicate CallsFit(slot: W.Slot) {
    && (forall i :: 0 <= i < |slot.operations| - 1 ==> slot.operations[i].phase.Ended?)
    && (slot.closer == W.NotClosing && Succeeded(slot) ==> slot.process.Some? && !slot.closed)
  }

  ghost predicate QueueFits(s: S.State, w: nat, slot: W.Slot) {
    !s.closed && w in s.available ==> Succeeded(slot)
  }

  ghost predicate SlotFits(m: W.Model, s: S.State, w: nat, slot: W.Slot) {
    W.Inv(m, slot) && UseFits(s, w, slot) && CloseFits(s, w, slot) && CallsFit(slot) && QueueFits(s, w, slot)
  }

  ghost predicate Inv(m: W.Model, j: Joint) {
    && |j.slots| == |j.service.workers| && S.Inv(j.service)
    && forall w :: 0 <= w < |j.slots| ==> SlotFits(m, j.service, w, j.slots[w])
  }

  // ----- steps of the service -----

  lemma ServiceKeepsWorkers(s: S.State, e: S.Event)
    requires S.Enabled(s, e) && !e.WorkerChanges? && !e.WorkerClosed?
    ensures S.After(s, e).workers == s.workers
  {
    if !e.FinishClose? {
      S.OthersLeaveWorkers(s, e);
      hide S.Enabled, S.After;
    }
  }

  lemma ServiceKeepsCloseFits(s: S.State, e: S.Event, w: nat, slot: W.Slot)
    requires S.Inv(s) && S.Enabled(s, e) && !e.WorkerChanges? && !e.WorkerClosed?
    requires w < |s.workers| && CloseFits(s, w, slot)
    ensures CloseFits(S.After(s, e), w, slot)
  {
    hide W.Dead, S.Apart, S.Complete, S.LockFits, S.InUse, S.RequestsOver, S.RecoveriesOver, S.WorkersGone;
  }

  /** What joins the queue is a worker whose call has returned normally. */
  lemma ServiceKeepsQueueFits(j: Joint, e: S.Event, w: nat)
    requires ServiceEnabled(j, e) && w < |j.slots| && QueueFits(j.service, w, j.slots[w])
    ensures QueueFits(S.After(j.service, e), w, j.slots[w])
  {
    hide Succeeded, CallsReturned, S.InUse, S.RequestsOver, S.RecoveriesOver, S.WorkerMayBecome;
    if w in S.After(j.service, e).available && w !in j.service.available && !S.After(j.service, e).closed {
      assert ReportsSuccess(j.service, e, w);
    }
  }

  lemma ServiceKeepsSlot(m: W.Model, j: Joint, e: S.Event, w: nat)
    requires Inv(m, j) && ServiceEnabled(j, e) && w < |j.slots|
    ensures SlotFits(m, S.After(j.service, e), w, j.slots[w])
  {
    hide W.Inv, W.AllEnded, S.Inv, S.InUse, S.Enabled, S.After, CloseFits, CallsFit, QueueFits, SuccessIsReal;
    assert SlotFits(m, j.service, w, j.slots[w]);
    ServiceKeepsWorkers(j.service, e);
    ServiceKeepsQueueFits(j, e, w);
    ServiceKeepsCloseFits(j.service, e, w, j.slots[w]);
  }

  // ----- steps of a slot -----

  lemma ChangeIsAllowed(s: S.State, w: nat, becomes: S.WorkerState)
    requires w < |s.workers| && S.InUse(s, w) && S.WorkerMayBecome(s.workers[w], becomes)
    ensures S.Enabled(s, S.WorkerChanges(w, becomes))
    ensures S.After(s, S.WorkerChanges(w, becomes)) == s.(workers := s.workers[w := becomes])
  {
  }

  /** Before `close`, what the service sees of a slot is a change that `Sidecar` allows. */
  lemma ChangeIsSeen(m: W.Model, j: Joint, w: nat, e: W.Event)
    requires Inv(m, j) && WorkerEnabled(m, j, w, e) && j.slots[w].closer == W.NotClosing && !e.BeginClose?
    ensures
      var after := W.After(m, j.slots[w], e);
      var seen := Seen(w, j.slots[w], after);
      && after.closer == W.NotClosing && (S.InUse(j.service, w) || W.AllEnded(after))
      && (seen.Some? ==>
            && seen == Some(S.WorkerChanges(w, Summary(after))) && S.Enabled(j.service, seen.value)
            && S.After(j.service, seen.value) == j.service.(workers := j.service.workers[w := Summary(after)]))
  {
    hide W.LockFits, W.ChildrenFit, W.PipesFit, W.RequestsFit, W.OpenWhileWorking, W.AllEnded, W.Enabled, W.After;
    hide S.Inv, S.InUse, S.Enabled, S.After, CloseFits;
    var slot := j.slots[w];
    assert SlotFits(m, j.service, w, slot);
    if S.InUse(j.service, w) {
      W.ClosedGainsNoProcessBeforeClose(m, slot, e);
      ChangeIsAllowed(j.service, w, Summary(W.After(m, slot, e)));
    } else {
      W.IdleSlotStaysIdle(m, slot, e);
    }
  }

  /** The return of `close` is a step of the closing task. */
  lemma ReturnIsSeen(m: W.Model, j: Joint, w: nat, e: W.Event)
    requires Inv(m, j) && WorkerEnabled(m, j, w, e) && j.slots[w].closer != W.NotClosing
    ensures
      var after := W.After(m, j.slots[w], e);
      var seen := Seen(w, j.slots[w], after);
      && after.closer != W.NotClosing && (j.slots[w].closer.Closed? ==> seen.None? && after.closer == j.slots[w].closer)
      && (seen.Some? ==>
            && seen == Some(S.WorkerClosed(w, after.closer.ok)) && S.Enabled(j.service, seen.value)
            && j.service.closing.ClosingWorkers? && (after.closer.ok ==> W.Dead(after)))
      && (W.Dead(j.slots[w]) ==> W.Dead(after))
  {
    hide W.LockFits, W.ChildrenFit, W.PipesFit, W.RequestsFit, W.OpenWhileWorking, W.Dead, W.Enabled, W.After;
    hide S.Inv, S.InUse;
    var slot := j.slots[w];
    assert SlotFits(m, j.service, w, slot);
    W.CloseGoesOn(m, slot, e);
    var after := W.After(m, slot, e);
    if after.closer == W.Closed(true) && slot.closer != W.Closed(true) {
      W.DeadWhenClosed(m, slot, e);
    }
    if W.Dead(slot) {
      W.DeadStaysDead(m, slot, e);
    }
  }

  /** Whatever a slot does, `Sidecar` allows what the service sees of it. */
  lemma SeenIsEnabled(m: W.Model, j: Joint, w: nat, e: W.Event)
    requires Inv(m, j) && WorkerEnabled(m, j, w, e)
    ensures
      var seen := Seen(w, j.slots[w], W.After(m, j.slots[w], e));
      seen.Some? ==> S.Enabled(j.service, seen.value)
  {
    hide Inv, W.Enabled, W.After, S.Enabled, S.After, W.Dead;
    if j.slots[w].closer != W.NotClosing {
      ReturnIsSeen(m, j, w, e);
    } else if e.BeginClose? {
      BeginIsUnseen(m, j, w, e);
    } else {
      ChangeIsSeen(m, j, w, e);
    }
  }

  lemma BeginIsUnseen(m: W.Model, j: Joint, w: nat, e: W.Event)
    requires WorkerEnabled(m, j, w, e) && e.BeginClose?
    ensures
      var after := W.After(m, j.slots[w], e);
      after.closer == W.Draining && Seen(w, j.slots[w], after).None?
  {
    hide S.InUse;
  }

  // ----- calls -----

  /** An operation that is not the last one is over, and stays so. */
  lemma OnlyTheLastMoves(m: W.Model, s: W.Slot, e: W.Event)
    requires W.Enabled(m, s, e) && (e.Call? ==> W.AllEnded(s))
    requires forall i :: 0 <= i < |s.operations| - 1 ==> s.operations[i].phase.Ended?
    ensures forall i :: 0 <= i < |W.After(m, s, e).operations| - 1 ==> W.After(m, s, e).operations[i].phase.Ended?
    ensures e.Call? ==> |W.After(m, s, e).operations| == |s.operations| + 1 && !Succeeded(W.After(m, s, e))
    ensures !e.Call? ==> |W.After(m, s, e).operations| == |s.operations|
    ensures W.AllEnded(s) && !e.Call? ==> W.After(m, s, e).operations == s.operations
  {
    hide F.ReadReply, F.EncodeReply, W.ServedOutput, W.FreshRequest, W.ReadyFrame;
    match e {
      case Stop(k) =>
      case BeginClose =>
        if W.AllEnded(s) {
          assert W.CloseBegun(s).operations == s.operations;
        }
      case _ =>
    }
  }

  lemma StepKeepsCallsFit(m: W.Model, s: W.Slot, e: W.Event)
    requires W.Inv(m, s) && W.Enabled(m, s, e) && CallsFit(s) && (e.Call? ==> W.AllEnded(s))
    ensures CallsFit(W.After(m, s, e))
  {
    hide W.Enabled, W.After, W.ChildrenFit, W.PipesFit, W.RequestsFit, W.OpenWhileWorking, W.LockFits;
    OnlyTheLastMoves(m, s, e);
    var s' := W.After(m, s, e);
    if s'.closer == W.NotClosing && Succeeded(s') {
      ClosingIsForGood(m, s, e);
      var last := |s'.operations| - 1;
      if Succeeded(s) {
        W.IdleSlotStaysIdle(m, s, e);
      } else {
        W.SuccessLeavesItReady(m, s, e, last);
      }
    }
  }

  lemma ClosingIsForGood(m: W.Model, s: W.Slot, e: W.Event)
    requires W.Enabled(m, s, e) && W.After(m, s, e).closer == W.NotClosing
    ensures s.closer == W.NotClosing && !e.BeginClose?
  {
    if s.closer != W.NotClosing && !e.BeginClose? {
      W.CloseGoesOn(m, s, e);
    }
  }

  /** A queued worker is in nobody's use, so nothing happens in its slot. */
  lemma QueuedIsNotInUse(s: S.State, w: nat)
    requires S.Apart(s) && w in s.available
    ensures !S.InUse(s, w)
  {
  }

  lemma StepKeepsQueueFits(m: W.Model, j: Joint, s': S.State, w: nat, e: W.Event)
    requires Inv(m, j) && WorkerEnabled(m, j, w, e) && s'.available == j.service.available
             && s'.closed == j.service.closed
    ensures QueueFits(s', w, W.After(m, j.slots[w], e))
  {
    hide W.Enabled, W.After, W.Inv, CloseFits, CallsFit, S.InUse, S.Complete, S.LockFits, S.ClosingFits, S.Apart;
    assert SlotFits(m, j.service, w, j.slots[w]);
    if !s'.closed && w in s'.available {
      QueuedIsNotInUse(j.service, w);
      OpenServiceClosesNobody(j.service, w, j.slots[w]);
      SlotCallsFit(m, j, w);
      OnlyTheLastMoves(m, j.slots[w], e);
    }
  }

  lemma SlotCallsFit(m: W.Model, j: Joint, w: nat)
    requires Inv(m, j) && w < |j.slots|
    ensures CallsFit(j.slots[w])
    ensures forall i :: 0 <= i < |j.slots[w].operations| - 1 ==> j.slots[w].operations[i].phase.Ended?
  {
    hide W.Inv, Succeeded;
    assert SlotFits(m, j.service, w, j.slots[w]);
  }

  lemma OpenServiceClosesNobody(s: S.State, w: nat, slot: W.Slot)
    requires S.Inv(s) && !s.closed && CloseFits(s, w, slot)
    ensures slot.closer == W.NotClosing
  {
    hide S.Apart, S.Complete, S.LockFits, S.StagesFit, S.WorkersFit;
  }

  lemma MovingSlotFits(m: W.Model, j: Joint, j': Joint, w: nat, e: W.Event)
    requires m.Valid() && Inv(m, j) && Step(m, j, j', Worker(w, e))
    ensures SlotFits(m, j'.service, w, j'.slots[w])
  {
    hide W.Inv, W.AllEnded, W.Dead, W.Enabled, W.After, S.Inv, S.InUse, S.Enabled, CallsFit, QueueFits;
    var slot := j.slots[w];
    assert SlotFits(m, j.service, w, slot);
    W.StepKeepsInv(m, slot, e);
    StepKeepsCallsFit(m, slot, e);
    SeenIsEnabled(m, j, w, e);
    StepKeepsQueueFits(m, j, j'.service, w, e);
    if slot.closer != W.NotClosing {
      ReturnIsSeen(m, j, w, e);
    } else if e.BeginClose? {
      BeginIsUnseen(m, j, w, e);
    } else {
      ChangeIsSeen(m, j, w, e);
      SameUse(j.service, j'.service, w);
    }
  }

  /** Who uses a worker does not depend on the summaries. */
  lemma SameUse(s: S.State, s': S.State, w: nat)
    requires s'.startup == s.startup && s'.loaded == s.loaded && s'.requests == s.requests
             && s'.recoveries == s.recoveries
    ensures S.InUse(s, w) <==> S.InUse(s', w)
  {
  }

  /** A slot that is not the one that moves is not affected. */
  lemma OtherSlotFits(m: W.Model, s: S.State, s': S.State, seen: Option<S.Event>, w: nat, k: nat, slot: W.Slot)
    requires Follows(s, s', seen) && (seen.Some? ==> S.Enabled(s, seen.value))
    requires seen.Some? ==> (seen.value.WorkerChanges? || seen.value.WorkerClosed?) && seen.value.w == w
    requires w != k && SlotFits(m, s, k, slot)
    ensures SlotFits(m, s', k, slot)
  {
    hide W.Inv, W.AllEnded, W.Dead, S.InUse, CallsFit, Succeeded;
    SameUse(s, s', k);
  }

  lemma StepKeepsInv(m: W.Model, j: Joint, j': Joint, event: Event)
    requires m.Valid() && Inv(m, j) && Step(m, j, j', event)
    ensures Inv(m, j')
  {
    hide W.Inv, S.Inv, S.Enabled, S.After, W.Enabled, W.After, SlotFits;
    match event {
      case Service(e) =>
        S.StepKeepsInv(j.service, e);
        ServiceKeepsWorkers(j.service, e);
        forall w | 0 <= w < |j.slots|
          ensures SlotFits(m, j'.service, w, j'.slots[w])
        {
          ServiceKeepsSlot(m, j, e, w);
        }
      case Worker(w, e) =>
        WorkerStepKeepsInv(m, j, j', w, e);
    }
  }

  lemma WorkerStepKeepsInv(m: W.Model, j: Joint, j': Joint, w: nat, e: W.Event)
    requires m.Valid() && Inv(m, j) && Step(m, j, j', Worker(w, e))
    ensures Inv(m, j')
  {
    hide W.Inv, S.Inv, S.Enabled, W.Enabled, W.After, SlotFits;
    var seen := Seen(w, j.slots[w], W.After(m, j.slots[w], e));
    SeenIsEnabled(m, j, w, e);
    if seen.Some? {
      S.StepKeepsInv(j.service, seen.value);
    }
    MovingSlotFits(m, j, j', w, e);
    forall k | 0 <= k < |j.slots|
      ensures SlotFits(m, j'.service, k, j'.slots[k])
    {
      if k != w {
        OtherSlotFits(m, j.service, j'.service, seen, w, k, j.slots[k]);
      }
    }
  }

  lemma {:induction false} EveryRunKeepsInv(m: W.Model, run: seq<Joint>, events: seq<Event>, n: nat)
    requires Run(m, run, events) && n < |run|
    ensures Inv(m, run[n])
  {
    hide W.Model.Valid, Step;
    if n != 0 {
      hide Inv;
      EveryRunKeepsInv(m, run, events, n - 1);
      assert Step(m, run[n - 1], run[n - 1 + 1], events[n - 1]);
      StepKeepsInv(m, run[n - 1], run[n], events[n - 1]);
    }
  }

  // ----- both sides are runs of their own models -----

  /** Every step of the whole is, to the service, a step of `Sidecar` or none. */
  lemma ServiceTakesItsOwnSteps(m: W.Model, run: seq<Joint>, events: seq<Event>, n: nat)
    requires Run(m, run, events) && n < |events|
    ensures run[n + 1].service == run[n].service
            || exists e :: S.Enabled(run[n].service, e) && run[n + 1].service == S.After(run[n].service, e)
  {
    hide Inv, S.Enabled, S.After, W.Enabled, W.After, W.Model.Valid;
    EveryRunKeepsInv(m, run, events, n);
    assert Step(m, run[n], run[n + 1], events[n]);
    if events[n].Worker? {
      SeenIsEnabled(m, run[n], events[n].w, events[n].e);
    }
  }

  /** So what the service can reach with its slots it can reach in `Sidecar`, and all that holds there holds here. */
  lemma {:induction false} ServiceRunsAsSidecar(m: W.Model, run: seq<Joint>, events: seq<Event>, n: nat)
    requires Run(m, run, events) && n < |run|
    ensures exists states, steps :: S.Run(states, steps) && states[|states| - 1] == run[n].service
  {
    hide Inv, Step, S.Enabled, S.After, W.Model.Valid;
    if n == 0 {
      assert S.Run([run[0].service], []);
    } else {
      ServiceRunsAsSidecar(m, run, events, n - 1);
      var states, steps :| S.Run(states, steps) && states[|states| - 1] == run[n - 1].service;
      ServiceTakesItsOwnSteps(m, run, events, n - 1);
      if run[n].service != run[n - 1].service {
        var e :| S.Enabled(run[n - 1].service, e) && run[n - 1 + 1].service == S.After(run[n - 1].service, e);
        assert S.Run(states + [run[n].service], steps + [e]);
      }
    }
  }

  /** And what a slot can reach under the service it can reach in `WorkerProcess`. */
  lemma {:induction false} SlotsRunAsWorkerProcess(m: W.Model, run: seq<Joint>, events: seq<Event>, n: nat, w: nat)
    requires Run(m, run, events) && n < |run| && w < |run[n].slots|
    ensures exists states, steps :: W.Run(m, states, steps) && states[|states| - 1] == run[n].slots[w]
  {
    hide Inv, W.Enabled, W.After, S.Enabled, S.After, W.Model.Valid, W.NewSlot;
    if n == 0 {
      assert W.Run(m, [run[0].slots[w]], []);
    } else {
      assert Step(m, run[n - 1], run[n - 1 + 1], events[n - 1]);
      SlotsRunAsWorkerProcess(m, run, events, n - 1, w);
      var states, steps :| W.Run(m, states, steps) && states[|states| - 1] == run[n - 1].slots[w];
      if events[n - 1].Worker? && events[n - 1].w == w {
        assert W.Run(m, states + [run[n].slots[w]], steps + [events[n - 1].e]);
      }
    }
  }

  // ----- the queue -----

  /**
    While the service is open, every worker in the queue is ready: its last call has succeeded, it is
    open, it has a child, and nothing is under way in it.
  */
  lemma QueuedWorkersAreReady(m: W.Model, run: seq<Joint>, events: seq<Event>, n: nat, w: nat)
    requires Run(m, run, events) && n < |run| && !run[n].service.closed && w in run[n].service.available
    ensures w < |run[n].slots|
    ensures
      var slot := run[n].slots[w];
      Succeeded(slot) && W.AllEnded(slot) && slot.process.Some? && !slot.closed
  {
    hide Run, W.Inv, S.InUse, S.Complete, S.LockFits, S.ClosingFits, CloseFits, W.AllEnded;
    EveryRunKeepsInv(m, run, events, n);
    var j := run[n];
    QueuedIsNotInUse(j.service, w);
    assert SlotFits(m, j.service, w, j.slots[w]);
    OpenServiceClosesNobody(j.service, w, j.slots[w]);
  }

  // ----- shutdown -----

  /**
    When `_close` returns without an error, no worker has a process left and no operation is under
    way in any of them, and that stays so in every later state.
  */
  lemma {:induction false} CleanCloseLeavesNoProcess(m: W.Model, run: seq<Joint>, events: seq<Event>, n: nat,
      later: nat)
    requires Run(m, run, events) && n <= later < |run| && run[n].service.closing == S.ClosingOver(true)
    ensures run[later].service.closing == S.ClosingOver(true)
    ensures forall w :: 0 <= w < |run[later].slots| ==> W.Dead(run[later].slots[w])
  {
    hide S.Inv, W.Inv, W.Dead, Step, S.Enabled, S.After, W.Model.Valid, UseFits;
    if n < later {
      CleanCloseLeavesNoProcess(m, run, events, n, later - 1);
      EveryRunKeepsInv(m, run, events, later - 1);
      ServiceTakesItsOwnSteps(m, run, events, later - 1);
      ClosingStaysOver(run[later - 1].service, run[later - 1 + 1].service);
    }
    EveryRunKeepsInv(m, run, events, later);
    forall w | 0 <= w < |run[later].slots|
      ensures W.Dead(run[later].slots[w])
    {
      assert SlotFits(m, run[later].service, w, run[later].slots[w]);
    }
  }

  lemma ClosingStaysOver(s: S.State, s': S.State)
    requires S.Inv(s) && s.closing == S.ClosingOver(true)
    requires s' == s || exists e :: S.Enabled(s, e) && s' == S.After(s, e)
    ensures s'.closing == S.ClosingOver(true)
  {
    hide S.Enabled, S.After, S.ClosingFits;
    if s' != s {
      var e :| S.Enabled(s, e) && s' == S.After(s, e);
      S.NobodyUsesWorkersAfterClose(s, e);
    }
  }
}
