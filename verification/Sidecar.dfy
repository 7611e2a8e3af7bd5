/**
  The slot allocator of the model service, as the steps between the points where its coroutines
  wait: startup, requests that queue for a slot, failures, rewarming, and shutdown, interleaved in
  any order. A worker is known by its position and summarised by whether it has a process and
  whether it is closed; `ServiceWorkers` puts the slots of `WorkerProcess` in their place.
*/
module Sidecar {
  import opened Outcomes

  datatype WorkerState = WorkerState(process: bool, closed: bool)

  /** Startup brings the workers up one after the other and then opens the socket. */
  datatype Startup = NotBegun | Loading | StartupOver

  datatype Request = Waiting | Running(worker: nat) | Answered

  datatype Recovery = Recovery(worker: nat, phase: RecoveryPhase)

  datatype RecoveryPhase = WaitingForLock | Warming | Over

  /** The stages of the one closing task. */
  datatype Closing =
    | NoTask | StoppingStartup | ClosingServer | DrainingRequests | DrainingRecoveries
    | ClosingWorkers(done: set<nat>, ok: bool) | ClosingOver(ok: bool)

  /**
    `loaded` counts the workers that startup has made available, `offered` is set with the socket,
    `closeTasks` counts the closing tasks created.
  */
  datatype State = State(
    workers: seq<WorkerState>, available: seq<nat>, startup: Startup, loaded: nat, offered: bool,
    requests: seq<Request>, recoveries: seq<Recovery>, warming: Option<nat>,
    closed: bool, closing: Closing, closeTasks: nat, serverFailed: bool)

  function Initial(n: nat): State {
    State(seq(n, i => WorkerState(false, false)), [], NotBegun, 0, false, [], [], None, false, NoTask, 0, false)
  }

  // ----- the pieces -----

  function Offered(s: State, w: nat): State {
    s.(available := s.available + [w])
  }

  /** Marks the service closed and creates the closing task unless there is one already. */
  function CloseBegun(s: State): State {
    if s.closing == NoTask then s.(closed := true, closing := StoppingStartup, closeTasks := s.closeTasks + 1)
    else s.(closed := true)
  }

  function WithRequest(s: State, i: nat, r: Request): State
    requires i < |s.requests|
  {
    s.(requests := s.requests[i := r])
  }

  function WithRecovery(s: State, i: nat, phase: RecoveryPhase): State
    requires i < |s.recoveries|
  {
    s.(recoveries := s.recoveries[i := s.recoveries[i].(phase := phase)])
  }

  /** A request that got a slot in a service that is closed gives up; otherwise the worker runs it. */
  function SlotTaken(s: State, i: nat): State
    requires i < |s.requests| && s.available != []
  {
    WithRequest(s, i, if s.closed then Answered else Running(s.available[0])).(available := s.available[1..])
  }

  /** A translation that failed: a closed worker closes the service, any other one is rewarmed. */
  function TranslationFailed(s: State, i: nat): State
    requires i < |s.requests| && s.requests[i].Running? && s.requests[i].worker < |s.workers|
  {
    var w := s.requests[i].worker;
    var over := WithRequest(s, i, Answered);
    if s.workers[w].closed then CloseBegun(over)
    else if s.closed then over
    else over.(recoveries := s.recoveries + [Recovery(w, WaitingForLock)])
  }

  function RecoveryLocked(s: State, i: nat): State
    requires i < |s.recoveries|
  {
    if s.closed then WithRecovery(s, i, Over) else WithRecovery(s, i, Warming).(warming := Some(i))
  }

  function Rewarmed(s: State, i: nat): State
    requires i < |s.recoveries|
  {
    var over := WithRecovery(s, i, Over).(warming := None);
    if s.closed then over else Offered(over, s.recoveries[i].worker)
  }

  /** Somebody in the service is at work with this worker. */
  ghost predicate InUse(s: State, w: nat) {
    || (s.startup == Loading && w == s.loaded)
    || (exists i :: 0 <= i < |s.requests| && s.requests[i] == Running(w))
    || (exists i :: 0 <= i < |s.recoveries| && s.recoveries[i] == Recovery(w, Warming))
  }

  /**
    A worker in use may gain or lose its process, or close itself; closed, it never gains one. That
    its slot does no more than this is `ServiceWorkers.ChangeIsSeen`.
  */
  predicate WorkerMayBecome(before: WorkerState, after: WorkerState) {
    && (before.closed ==> after.closed)
    && (after.process ==> before.process || !before.closed)
  }

  datatype Event =
    | BeginStartup | WorkerReady | OpenSocket | StartupFails
    | Arrive | TakeSlot(r: nat) | Deliver(r: nat) | Fail(r: nat) | GiveUpWaiting(r: nat)
    | LockRecovery(c: nat) | FinishRecovery(c: nat) | RecoveryFails(c: nat)
    | WorkerChanges(w: nat, becomes: WorkerState)
    | BeginClose | StartupStopped | ServerClosed(failed: bool) | RequestsDrained
    | CancelRecovery(c: nat) | RecoveriesDrained | WorkerClosed(w: nat, reaped: bool) | FinishClose

  predicate RequestIs(s: State, i: nat, r: Request) {
    i < |s.requests| && s.requests[i] == r
  }

  predicate RecoveryIs(s: State, i: nat, phase: RecoveryPhase) {
    i < |s.recoveries| && s.recoveries[i].phase == phase
  }

  ghost predicate RequestsOver(s: State) {
    forall i :: 0 <= i < |s.requests| ==> s.requests[i] == Answered
  }

  ghost predicate RecoveriesOver(s: State) {
    forall i :: 0 <= i < |s.recoveries| ==> s.recoveries[i].phase == Over
  }

  ghost predicate Enabled(s: State, e: Event) {
    match e
    case BeginStartup => s.startup == NotBegun && !s.closed
    case WorkerReady => s.startup == Loading && s.loaded < |s.workers|
    case OpenSocket => s.startup == Loading && s.loaded == |s.workers|
    case StartupFails => s.startup == Loading
    case Arrive => s.offered && !s.closed
    case TakeSlot(i) => RequestIs(s, i, Waiting) && s.available != []
    case Deliver(i) => i < |s.requests| && s.requests[i].Running?
    case Fail(i) => i < |s.requests| && s.requests[i].Running? && s.requests[i].worker < |s.workers|
    case GiveUpWaiting(i) => RequestIs(s, i, Waiting)
    case LockRecovery(i) => RecoveryIs(s, i, WaitingForLock) && s.warming == None
    case FinishRecovery(i) => RecoveryIs(s, i, Warming)
    case RecoveryFails(i) => RecoveryIs(s, i, Warming)
    case WorkerChanges(w, becomes) => w < |s.workers| && InUse(s, w) && WorkerMayBecome(s.workers[w], becomes)
    case BeginClose => true
    case StartupStopped => s.closing == StoppingStartup && s.startup != Loading
    case ServerClosed(failed) => s.closing == ClosingServer && (failed ==> s.offered)
    case RequestsDrained => s.closing == DrainingRequests && RequestsOver(s)
    case CancelRecovery(i) => s.closing == DrainingRecoveries
      && (RecoveryIs(s, i, WaitingForLock) || RecoveryIs(s, i, Warming))
    case RecoveriesDrained => s.closing == DrainingRecoveries && RecoveriesOver(s)
    case WorkerClosed(w, _) => s.closing.ClosingWorkers? && w !in s.closing.done && w < |s.workers|
    case FinishClose => s.closing.ClosingWorkers? && forall w: nat :: w < |s.workers| ==> w in s.closing.done
  }

  ghost function After(s: State, e: Event): State
    requires Enabled(s, e)
  {
    match e
    case BeginStartup => s.(startup := Loading)
    case WorkerReady => Offered(s, s.loaded).(loaded := s.loaded + 1)
    case OpenSocket => s.(startup := StartupOver, offered := true)
    case StartupFails => s.(startup := StartupOver)
    case Arrive => s.(requests := s.requests + [Waiting])
    case TakeSlot(i) => SlotTaken(s, i)
    case Deliver(i) => Offered(WithRequest(s, i, Answered), s.requests[i].worker)
    case Fail(i) => TranslationFailed(s, i)
    case GiveUpWaiting(i) => WithRequest(s, i, Answered)
    case LockRecovery(i) => RecoveryLocked(s, i)
    case FinishRecovery(i) => Rewarmed(s, i)
    case RecoveryFails(i) => CloseBegun(WithRecovery(s, i, Over).(warming := None))
    case WorkerChanges(w, becomes) => s.(workers := s.workers[w := becomes])
    case BeginClose => CloseBegun(s)
    case StartupStopped => s.(closing := ClosingServer)
    case ServerClosed(failed) => s.(closing := DrainingRequests, serverFailed := failed)
    case RequestsDrained => s.(closing := DrainingRecoveries)
    case CancelRecovery(i) =>
      WithRecovery(s, i, Over).(warming := if s.warming == Some(i) then None else s.warming)
    case RecoveriesDrained => s.(closing := ClosingWorkers({}, true))
    case WorkerClosed(w, reaped) =>
      s.(workers := s.workers[w := WorkerState(s.workers[w].process && !reaped, true)],
      closing := ClosingWorkers(s.closing.done + {w}, s.closing.ok && reaped))
    case FinishClose => s.(closing := ClosingOver(s.closing.ok && !s.serverFailed))
  }

  ghost predicate Run(run: seq<State>, events: seq<Event>) {
    && |run| == |events| + 1 && (exists n: nat :: n > 0 && run[0] == Initial(n))
    && forall i :: 0 <= i < |events| ==> Enabled(run[i], events[i]) && run[i + 1] == After(run[i], events[i])
  }

  // ----- places -----

  ghost predicate Held(s: State, w: nat) {
    exists i :: 0 <= i < |s.requests| && s.requests[i] == Running(w)
  }

  predicate RecoveredBy(s: State, w: nat, i: nat) {
    i < |s.recoveries| && s.recoveries[i].worker == w && s.recoveries[i].phase != Over
  }

  ghost predicate InRecovery(s: State, w: nat) {
    exists i :: 0 <= i < |s.recoveries| && RecoveredBy(s, w, i)
  }

  /** No worker is in two places. */
  ghost predicate Apart(s: State) {
    && s.loaded <= |s.workers|
    && (forall i :: 0 <= i < |s.available| ==> s.available[i] < s.loaded)
    && (forall i, k :: 0 <= i < k < |s.available| ==> s.available[i] != s.available[k])
    && (forall i :: 0 <= i < |s.requests| && s.requests[i].Running? ==>
          s.requests[i].worker < s.loaded && s.requests[i].worker !in s.available)
    && (forall i, k :: 0 <= i < k < |s.requests| && s.requests[i].Running? ==> s.requests[i] != s.requests[k])
    && (forall i :: 0 <= i < |s.recoveries| && s.recoveries[i].phase != Over ==>
          && s.recoveries[i].worker < s.loaded && s.recoveries[i].worker !in s.available
          && Running(s.recoveries[i].worker) !in s.requests)
    && (forall i, k :: 0 <= i < k < |s.recoveries| && s.recoveries[i].phase != Over && s.recoveries[k].phase != Over ==>
          s.recoveries[i].worker != s.recoveries[k].worker)
  }

  /** While the service is open, no loaded worker is missing. */
  ghost predicate Complete(s: State) {
    !s.closed ==> forall w :: 0 <= w < s.loaded ==> w in s.available || Held(s, w) || InRecovery(s, w)
  }

  /** The recovery lock is held by the one recovery that is warming. */
  ghost predicate LockFits(s: State) {
    && (forall i :: 0 <= i < |s.recoveries| ==> (s.recoveries[i].phase == Warming <==> s.warming == Some(i)))
    && (s.warming.Some? ==> s.warming.value < |s.recoveries|)
  }

  function Progress(c: Closing): nat {
    match c
    case NoTask => 0
    case StoppingStartup => 1
    case ClosingServer => 2
    case DrainingRequests => 3
    case DrainingRecoveries => 4
    case ClosingWorkers(_, _) => 5
    case ClosingOver(_) => 6
  }

  ghost predicate WorkersGone(s: State) {
    forall w :: 0 <= w < |s.workers| ==> s.workers[w] == WorkerState(false, true)
  }

  /** There is one closing task as soon as the service is closed, and its stages hold what they waited for. */
  ghost predicate ClosingFits(s: State) {
    TaskFits(s) && StagesFit(s) && WorkersFit(s)
  }

  ghost predicate TaskFits(s: State) {
    (s.closed <==> s.closing != NoTask) && s.closeTasks == (if s.closed then 1 else 0)
  }

  ghost predicate StagesFit(s: State) {
    && (s.startup == NotBegun ==> s.loaded == 0)
    && (Progress(s.closing) >= 2 ==> s.startup != Loading)
    && (Progress(s.closing) >= 4 ==> RequestsOver(s))
    && (Progress(s.closing) >= 5 ==> RecoveriesOver(s))
  }

  /** The workers whose close has returned are closed, and without an error reaped. */
  ghost predicate WorkersFit(s: State) {
    && (s.closing.ClosingWorkers? && s.closing.ok ==>
          forall w: nat :: w < |s.workers| && w in s.closing.done ==> s.workers[w] == WorkerState(false, true))
    && (s.closing == ClosingOver(true) ==> WorkersGone(s))
  }

  ghost predicate Inv(s: State) {
    Apart(s) && Complete(s) && LockFits(s) && ClosingFits(s)
  }

  // ----- every step keeps it -----

  lemma WorkerReadyKeepsPlaces(s: State)
    requires Apart(s) && Complete(s) && Enabled(s, WorkerReady)
    ensures Apart(After(s, WorkerReady)) && Complete(After(s, WorkerReady))
  {
    var s' := After(s, WorkerReady);
    forall w | 0 <= w < s'.loaded && !s.closed
      ensures w in s'.available || Held(s', w) || InRecovery(s', w)
    {
      KeepPlace(s, s', w);
      assert w == s.loaded ==> s'.available[|s.available|] == w;
    }
  }

  /** A worker that is not touched stays where it is. */
  lemma KeepPlace(s: State, s': State, w: nat)
    requires |s.requests| <= |s'.requests| && |s.recoveries| <= |s'.recoveries|
    requires forall i :: 0 <= i < |s.requests| && s.requests[i] == Running(w) ==> s'.requests[i] == Running(w)
    requires forall i :: 0 <= i < |s.recoveries| && RecoveredBy(s, w, i) ==> RecoveredBy(s', w, i)
    ensures Held(s, w) ==> Held(s', w)
    ensures InRecovery(s, w) ==> InRecovery(s', w)
  {
  }

  lemma ArriveKeepsPlaces(s: State)
    requires Apart(s) && Complete(s) && Enabled(s, Arrive)
    ensures Apart(After(s, Arrive)) && Complete(After(s, Arrive))
  {
    var s' := After(s, Arrive);
    forall w | 0 <= w < s'.loaded && !s.closed
      ensures w in s'.available || Held(s', w) || InRecovery(s', w)
    {
      KeepPlace(s, s', w);
    }
  }

  lemma TakeSlotKeepsPlaces(s: State, i: nat)
    requires Apart(s) && Complete(s) && Enabled(s, TakeSlot(i))
    ensures Apart(After(s, TakeSlot(i))) && Complete(After(s, TakeSlot(i)))
  {
    TakenIsComplete(s, i);
    hide Complete;
    assert s.available == [s.available[0]] + s.available[1..];
  }

  lemma TakenIsComplete(s: State, i: nat)
    requires Complete(s) && Enabled(s, TakeSlot(i))
    ensures Complete(After(s, TakeSlot(i)))
  {
    var s' := After(s, TakeSlot(i));
    assert s.available == [s.available[0]] + s'.available;
    forall w | 0 <= w < s'.loaded && !s.closed
      ensures w in s'.available || Held(s', w) || InRecovery(s', w)
    {
      if w == s.available[0] {
        assert s'.requests[i] == Running(w);
      } else {
        KeepPlace(s, s', w);
      }
    }
  }

  /** A request that is over leaves its worker in no place at all. */
  lemma Released(s: State, i: nat)
    requires Apart(s) && i < |s.requests| && s.requests[i].Running?
    ensures
      var over, mine := WithRequest(s, i, Answered), s.requests[i].worker;
      Apart(over) && mine < s.loaded && mine !in over.available && Running(mine) !in over.requests
        && !InRecovery(over, mine)
  {
    assert s.requests[i] == Running(s.requests[i].worker);
  }

  lemma WorkerOffered(s: State, w: nat)
    requires Apart(s) && w < s.loaded && w !in s.available && Running(w) !in s.requests && !InRecovery(s, w)
    ensures Apart(Offered(s, w))
  {
    forall i | 0 <= i < |s.recoveries| && s.recoveries[i].phase != Over
      ensures s.recoveries[i].worker != w
    {
      assert !RecoveredBy(s, w, i);
    }
  }

  lemma DeliverKeepsPlaces(s: State, i: nat)
    requires Apart(s) && Complete(s) && Enabled(s, Deliver(i))
    ensures Apart(After(s, Deliver(i))) && Complete(After(s, Deliver(i)))
  {
    DeliveredIsComplete(s, i);
    hide Complete, Apart, InRecovery;
    Released(s, i);
    WorkerOffered(WithRequest(s, i, Answered), s.requests[i].worker);
  }

  lemma DeliveredIsComplete(s: State, i: nat)
    requires Complete(s) && Enabled(s, Deliver(i))
    ensures Complete(After(s, Deliver(i)))
  {
    var s' := After(s, Deliver(i));
    var mine := s.requests[i].worker;
    assert s'.available[|s.available|] == mine;
    forall w | 0 <= w < s'.loaded && !s.closed
      ensures w in s'.available || Held(s', w) || InRecovery(s', w)
    {
      if w != mine {
        KeepPlace(s, s', w);
      }
    }
  }

  lemma RecoveryAdded(s: State, w: nat)
    requires Apart(s) && w < s.loaded && w !in s.available && Running(w) !in s.requests && !InRecovery(s, w)
    ensures Apart(s.(recoveries := s.recoveries + [Recovery(w, WaitingForLock)]))
  {
    forall i | 0 <= i < |s.recoveries| && s.recoveries[i].phase != Over
      ensures s.recoveries[i].worker != w
    {
      assert !RecoveredBy(s, w, i);
    }
  }

  lemma FailKeepsPlaces(s: State, i: nat)
    requires Apart(s) && Complete(s) && Enabled(s, Fail(i))
    ensures Apart(After(s, Fail(i))) && Complete(After(s, Fail(i)))
  {
    FailedIsComplete(s, i);
    hide Complete, Held, InRecovery;
    Released(s, i);
    var over, mine := WithRequest(s, i, Answered), s.requests[i].worker;
    RecoveryAdded(over, mine);
    SamePlacesApart(over, CloseBegun(over));
    hide Apart;
  }

  lemma FailedIsComplete(s: State, i: nat)
    requires Complete(s) && Enabled(s, Fail(i))
    ensures Complete(After(s, Fail(i)))
  {
    var s' := After(s, Fail(i));
    var mine := s.requests[i].worker;
    forall w | 0 <= w < s'.loaded && !s'.closed
      ensures w in s'.available || Held(s', w) || InRecovery(s', w)
    {
      if w == mine {
        assert RecoveredBy(s', w, |s.recoveries|);
      } else {
        KeepPlace(s, s', w);
      }
    }
  }

  /** A recovery that is over leaves its worker in no place at all. */
  lemma RecoveryReleased(s: State, i: nat)
    requires Apart(s) && i < |s.recoveries| && s.recoveries[i].phase != Over
    ensures
      var over, mine := WithRecovery(s, i, Over).(warming := None), s.recoveries[i].worker;
      Apart(over) && mine < s.loaded && mine !in over.available && Running(mine) !in over.requests
        && !InRecovery(over, mine)
  {
  }

  lemma FinishRecoveryKeepsPlaces(s: State, i: nat)
    requires Apart(s) && Complete(s) && Enabled(s, FinishRecovery(i))
    ensures Apart(After(s, FinishRecovery(i))) && Complete(After(s, FinishRecovery(i)))
  {
    RecoveredIsComplete(s, i);
    hide Complete, Apart, InRecovery;
    RecoveryReleased(s, i);
    WorkerOffered(WithRecovery(s, i, Over).(warming := None), s.recoveries[i].worker);
  }

  lemma RecoveredIsComplete(s: State, i: nat)
    requires Complete(s) && Enabled(s, FinishRecovery(i))
    ensures Complete(After(s, FinishRecovery(i)))
  {
    var s' := After(s, FinishRecovery(i));
    var mine := s.recoveries[i].worker;
    if !s.closed {
      assert s'.available[|s.available|] == mine;
    }
    forall w | 0 <= w < s'.loaded && !s.closed
      ensures w in s'.available || Held(s', w) || InRecovery(s', w)
    {
      if w != mine {
        KeepPlace(s, s', w);
      }
    }
  }

  predicate MovesWorker(e: Event) {
    e.WorkerReady? || e.Arrive? || e.TakeSlot? || e.Deliver? || e.Fail? || e.FinishRecovery?
  }

  /** Nothing that places depend on has changed, except perhaps that the service has closed. */
  ghost predicate SamePlaces(s: State, s': State) {
    && s'.loaded == s.loaded && s'.available == s.available && |s'.workers| == |s.workers| && (s.closed ==> s'.closed)
    && |s'.requests| == |s.requests| && |s'.recoveries| == |s.recoveries|
    && (forall i :: 0 <= i < |s.requests| ==>
         s'.requests[i] == s.requests[i] || (!s.requests[i].Running? && !s'.requests[i].Running?))
    && (forall i :: 0 <= i < |s.recoveries| ==>
          s'.recoveries[i].worker == s.recoveries[i].worker
            && (s.recoveries[i].phase == Over ==> s'.recoveries[i].phase == Over))
    && (!s'.closed ==> forall i :: 0 <= i < |s.recoveries| && s'.recoveries[i].phase == Over ==>
         s.recoveries[i].phase == Over)
  }

  lemma SamePlacesKeep(s: State, s': State)
    requires Apart(s) && Complete(s) && SamePlaces(s, s')
    ensures Apart(s') && Complete(s')
  {
    SamePlacesApart(s, s');
    hide Apart;
    forall w | 0 <= w < s'.loaded && !s'.closed
      ensures w in s'.available || Held(s', w) || InRecovery(s', w)
    {
      KeepPlace(s, s', w);
    }
  }

  lemma SamePlacesApart(s: State, s': State)
    requires Apart(s) && SamePlaces(s, s')
    ensures Apart(s')
  {
  }

  lemma OthersKeepPlaces(s: State, e: Event)
    requires ClosingFits(s) && Enabled(s, e) && !MovesWorker(e)
    ensures SamePlaces(s, After(s, e))
  {
    hide WorkersGone, RequestsOver, RecoveriesOver, InUse;
  }

  lemma StepKeepsPlaces(s: State, e: Event)
    requires Apart(s) && Complete(s) && ClosingFits(s) && Enabled(s, e)
    ensures Apart(After(s, e)) && Complete(After(s, e))
  {
    hide Apart, Complete, Enabled, After, ClosingFits, SamePlaces;
    match e {
      case WorkerReady => WorkerReadyKeepsPlaces(s);
      case Arrive => ArriveKeepsPlaces(s);
      case TakeSlot(i) => TakeSlotKeepsPlaces(s, i);
      case Deliver(i) => DeliverKeepsPlaces(s, i);
      case Fail(i) => FailKeepsPlaces(s, i);
      case FinishRecovery(i) => FinishRecoveryKeepsPlaces(s, i);
      case _ =>
        OthersKeepPlaces(s, e);
        SamePlacesKeep(s, After(s, e));
    }
  }

  lemma MoreWaitingKeepsLock(s: State, s': State)
    requires LockFits(s) && s.recoveries <= s'.recoveries && s'.warming == s.warming
    requires forall i :: |s.recoveries| <= i < |s'.recoveries| ==> s'.recoveries[i].phase == WaitingForLock
    ensures LockFits(s')
  {
  }

  lemma OneRecoveryKeepsLock(s: State, s': State, i: nat, phase: RecoveryPhase)
    requires LockFits(s) && i < |s.recoveries| && s'.recoveries == s.recoveries[i := s.recoveries[i].(phase := phase)]
    requires s.recoveries[i].phase == Warming || s.warming == None || phase == Over
    requires s'.warming == if phase == Warming then Some(i) else if s.warming == Some(i) then None else s.warming
    ensures LockFits(s')
  {
  }

  lemma StepKeepsLock(s: State, e: Event)
    requires LockFits(s) && Enabled(s, e)
    ensures LockFits(After(s, e))
  {
    var s' := After(s, e);
    match e {
      case LockRecovery(i) => OneRecoveryKeepsLock(s, s', i, if s.closed then Over else Warming);
      case FinishRecovery(i) => OneRecoveryKeepsLock(s, s', i, Over);
      case RecoveryFails(i) => OneRecoveryKeepsLock(s, s', i, Over);
      case CancelRecovery(i) => OneRecoveryKeepsLock(s, s', i, Over);
      case _ => OthersKeepLock(s, e);
    }
  }

  lemma OthersKeepLock(s: State, e: Event)
    requires LockFits(s) && Enabled(s, e)
    requires !e.LockRecovery? && !e.FinishRecovery? && !e.RecoveryFails? && !e.CancelRecovery?
    ensures LockFits(After(s, e))
  {
    hide InUse, RequestsOver, RecoveriesOver, LockFits;
    MoreWaitingKeepsLock(s, After(s, e));
  }

  lemma RequestsStayOver(s: State, e: Event)
    requires Enabled(s, e) && s.closed && RequestsOver(s)
    ensures RequestsOver(After(s, e))
  {
    hide InUse, RecoveriesOver;
  }

  lemma RecoveriesStayOver(s: State, e: Event)
    requires Enabled(s, e) && s.closed && RecoveriesOver(s)
    ensures RecoveriesOver(After(s, e))
  {
    hide InUse, RequestsOver;
  }

  lemma ChangeKeepsWorkers(s: State, w: nat, becomes: WorkerState)
    requires Enabled(s, WorkerChanges(w, becomes)) && WorkersFit(s)
    requires Progress(s.closing) >= 5 ==> s.startup != Loading && RequestsOver(s) && RecoveriesOver(s)
    ensures WorkersFit(After(s, WorkerChanges(w, becomes)))
  {
    hide WorkerMayBecome;
  }

  lemma CloseKeepsWorkers(s: State, w: nat, reaped: bool)
    requires Enabled(s, WorkerClosed(w, reaped)) && WorkersFit(s)
    ensures WorkersFit(After(s, WorkerClosed(w, reaped)))
  {
    hide InUse, RequestsOver, RecoveriesOver, WorkersGone;
  }

  lemma FinishKeepsWorkers(s: State)
    requires Enabled(s, FinishClose) && WorkersFit(s)
    ensures WorkersFit(After(s, FinishClose))
  {
    hide InUse, RequestsOver, RecoveriesOver;
  }

  /** The pieces that steps are made of touch no worker, and at most begin the closing task. */
  ghost predicate LeavesWorkers(s: State, s': State) {
    s'.workers == s.workers && (s'.closing == s.closing || s'.closing == StoppingStartup)
  }

  lemma RequestsLeaveWorkers(s: State, e: Event)
    requires Enabled(s, e) && (e.TakeSlot? || e.Deliver? || e.Fail? || e.GiveUpWaiting?)
    ensures LeavesWorkers(s, After(s, e))
  {
    hide InUse, RequestsOver, RecoveriesOver;
  }

  lemma RecoveriesLeaveWorkers(s: State, e: Event)
    requires Enabled(s, e) && (e.LockRecovery? || e.FinishRecovery? || e.RecoveryFails? || e.CancelRecovery?)
    ensures LeavesWorkers(s, After(s, e))
  {
    hide InUse, RequestsOver, RecoveriesOver;
  }

  lemma OthersLeaveWorkers(s: State, e: Event)
    requires Enabled(s, e) && !e.WorkerChanges? && !e.WorkerClosed? && !e.FinishClose?
    ensures After(s, e).workers == s.workers
    ensures After(s, e).closing == s.closing || Progress(After(s, e).closing) < 5
            || After(s, e).closing == ClosingWorkers({}, true)
  {
    hide InUse, RequestsOver, RecoveriesOver, WithRequest, WithRecovery, SlotTaken, TranslationFailed, RecoveryLocked,
      Rewarmed;
    if e.TakeSlot? || e.Deliver? || e.Fail? || e.GiveUpWaiting? {
      RequestsLeaveWorkers(s, e);
    } else if e.LockRecovery? || e.FinishRecovery? || e.RecoveryFails? || e.CancelRecovery? {
      RecoveriesLeaveWorkers(s, e);
    }
  }

  lemma OthersKeepWorkers(s: State, e: Event)
    requires Enabled(s, e) && WorkersFit(s) && !e.WorkerChanges? && !e.WorkerClosed? && !e.FinishClose?
    ensures WorkersFit(After(s, e))
  {
    hide InUse, RequestsOver, RecoveriesOver, WorkersGone;
    OthersLeaveWorkers(s, e);
    SameWorkersGone(s, After(s, e));
    hide After, Enabled;
  }

  lemma SameWorkersGone(s: State, s': State)
    requires s'.workers == s.workers
    ensures WorkersGone(s) <==> WorkersGone(s')
  {
  }

  /** Once workers are being closed nobody uses one any more, so a closed worker stays as it is. */
  lemma StepKeepsWorkers(s: State, e: Event)
    requires Enabled(s, e) && WorkersFit(s)
    requires Progress(s.closing) >= 5 ==> s.startup != Loading && RequestsOver(s) && RecoveriesOver(s)
    ensures WorkersFit(After(s, e))
  {
    hide Enabled, After, WorkersFit, RequestsOver, RecoveriesOver;
    match e {
      case WorkerChanges(w, becomes) => ChangeKeepsWorkers(s, w, becomes);
      case WorkerClosed(w, reaped) => CloseKeepsWorkers(s, w, reaped);
      case FinishClose => FinishKeepsWorkers(s);
      case _ => OthersKeepWorkers(s, e);
    }
  }

  lemma StepKeepsTask(s: State, e: Event)
    requires TaskFits(s) && Enabled(s, e)
    ensures TaskFits(After(s, e))
  {
    hide InUse, RequestsOver, RecoveriesOver;
  }

  lemma StepKeepsStages(s: State, e: Event)
    requires TaskFits(s) && StagesFit(s) && Enabled(s, e)
    ensures StagesFit(After(s, e))
  {
    hide InUse, RequestsOver, RecoveriesOver;
    if s.closed && RequestsOver(s) {
      RequestsStayOver(s, e);
    }
    if s.closed && RecoveriesOver(s) {
      RecoveriesStayOver(s, e);
    }
  }

  lemma StepKeepsClosing(s: State, e: Event)
    requires ClosingFits(s) && Enabled(s, e)
    ensures ClosingFits(After(s, e))
  {
    hide Enabled, After, TaskFits, WorkersFit;
    StepKeepsTask(s, e);
    StepKeepsStages(s, e);
    StepKeepsWorkers(s, e);
  }

  lemma StepKeepsInv(s: State, e: Event)
    requires Inv(s) && Enabled(s, e)
    ensures Inv(After(s, e))
  {
    hide Apart, Complete, Enabled, After, ClosingFits, LockFits;
    StepKeepsPlaces(s, e);
    StepKeepsLock(s, e);
    StepKeepsClosing(s, e);
  }

  lemma {:induction false} EveryRunKeepsInv(run: seq<State>, events: seq<Event>, n: nat)
    requires Run(run, events) && n < |run|
    ensures Inv(run[n])
  {
    hide Enabled, After;
    if n != 0 {
      hide Apart, Complete, ClosingFits, LockFits;
      EveryRunKeepsInv(run, events, n - 1);
      StepKeepsInv(run[n - 1], events[n - 1]);
    }
  }

  // ----- slot conservation -----

  /** The four places a worker can be in. */
  datatype Place = NotStarted | InQueue | AtRequest(r: nat) | AtRecovery(c: nat)

  predicate IsAt(s: State, w: nat, p: Place) {
    match p
    case NotStarted => w >= s.loaded
    case InQueue => w in s.available
    case AtRequest(i) => i < |s.requests| && s.requests[i] == Running(w)
    case AtRecovery(i) => RecoveredBy(s, w, i)
  }

  lemma OnePlaceAtMost(s: State, w: nat, p: Place, q: Place)
    requires Apart(s) && IsAt(s, w, p) && IsAt(s, w, q)
    ensures p == q
  {
    match p {
      case AtRecovery(i) =>
        assert s.recoveries[i].worker == w;
      case _ =>
    }
  }

  /**
    Slot conservation: in every reachable state each worker is in at most one place, and while the
    service is open in exactly one, so no timeout, cancellation or failure loses or doubles a slot.
  */
  lemma EveryWorkerIsInOnePlace(run: seq<State>, events: seq<Event>, n: nat, w: nat)
    requires Run(run, events) && n < |run| && w < |run[n].workers|
    ensures forall p, q :: IsAt(run[n], w, p) && IsAt(run[n], w, q) ==> p == q
    ensures !run[n].closed ==> exists p :: IsAt(run[n], w, p)
  {
    hide Run, Apart, LockFits, ClosingFits;
    EveryRunKeepsInv(run, events, n);
    var s := run[n];
    forall p, q | IsAt(s, w, p) && IsAt(s, w, q)
      ensures p == q
    {
      OnePlaceAtMost(s, w, p, q);
    }
    if !s.closed {
      if w >= s.loaded {
        assert IsAt(s, w, NotStarted);
      } else if w in s.available {
        assert IsAt(s, w, InQueue);
      } else if Held(s, w) {
        var i :| 0 <= i < |s.requests| && s.requests[i] == Running(w);
        assert IsAt(s, w, AtRequest(i));
      } else {
        var i :| 0 <= i < |s.recoveries| && RecoveredBy(s, w, i);
        assert IsAt(s, w, AtRecovery(i));
      }
    }
  }

  lemma {:induction false} DistinctBelow(available: seq<nat>, n: nat)
    requires forall i :: 0 <= i < |available| ==> available[i] < n
    requires forall i, k :: 0 <= i < k < |available| ==> available[i] != available[k]
    ensures |available| <= n
    decreases n
  {
    if available == [] {
    } else if n - 1 in available {
      var i :| 0 <= i < |available| && available[i] == n - 1;
      var rest := available[..i] + available[i + 1..];
      forall k | 0 <= k < |rest|
        ensures rest[k] < n - 1
      {
        assert rest[k] == available[if k < i then k else k + 1];
      }
      DistinctBelow(rest, n - 1);
    } else {
      var first := available[0];
      forall k | 0 <= k < |available|
        ensures available[k] < n - 1
      {
        assert available[k] in available;
      }
      DistinctBelow(available, n - 1);
    }
  }

  predicate Offers(e: Event) {
    e.WorkerReady? || e.Deliver? || e.FinishRecovery?
  }

  /** The bounded queue never overflows: whenever a worker is put back, there is room for it. */
  lemma QueueNeverOverflows(run: seq<State>, events: seq<Event>, n: nat)
    requires Run(run, events) && n < |run|
    ensures |run[n].available| <= |run[n].workers|
    ensures n < |events| && Offers(events[n]) && run[n + 1].available != run[n].available ==>
              |run[n].available| < |run[n].workers|
  {
    hide Enabled, After, Inv;
    EveryRunKeepsInv(run, events, n);
    QueueFits(run[n]);
    if n < |events| && Offers(events[n]) && run[n + 1].available != run[n].available {
      OfferGrows(run, events, n);
      EveryRunKeepsInv(run, events, n + 1);
      QueueFits(run[n + 1]);
    }
  }

  lemma QueueFits(s: State)
    requires Inv(s)
    ensures |s.available| <= |s.workers|
  {
    hide Complete, LockFits, ClosingFits;
    DistinctBelow(s.available, |s.workers|);
  }

  lemma OfferGrows(run: seq<State>, events: seq<Event>, n: nat)
    requires Run(run, events) && n < |events| && Offers(events[n]) && run[n + 1].available != run[n].available
    ensures |run[n + 1].available| == |run[n].available| + 1 && |run[n + 1].workers| == |run[n].workers|
  {
    assert Enabled(run[n], events[n]) && run[n + 1] == After(run[n], events[n]);
  }

  // ----- shutdown -----

  /** Closing is for good: it never reopens, there is one closing task, and nothing new is started. */
  lemma NothingNewOnceClosed(s: State, e: Event)
    requires ClosingFits(s) && Enabled(s, e) && s.closed
    ensures
      var s' := After(s, e);
      && s'.closed && s'.closeTasks == s.closeTasks == 1
      && |s'.requests| == |s.requests| && |s'.recoveries| == |s.recoveries|
      && (s.startup != Loading ==> s'.startup != Loading)
      && (forall i :: 0 <= i < |s.requests| && s'.requests[i].Running? ==> s.requests[i] == s'.requests[i])
      && (forall i :: 0 <= i < |s.recoveries| && s'.recoveries[i].phase == Warming ==>
           s.recoveries[i] == s'.recoveries[i])
      && Progress(s'.closing) >= Progress(s.closing)
  {
    hide InUse, WorkersGone, RequestsOver, RecoveriesOver, WorkerMayBecome;
    match e {
      case TakeSlot(i) =>
      case Fail(i) =>
      case LockRecovery(i) =>
      case FinishRecovery(i) =>
      case RecoveryFails(i) =>
      case CancelRecovery(i) =>
      case _ =>
    }
  }

  lemma {:induction false} ClosedIsMonotone(run: seq<State>, events: seq<Event>, n: nat, later: nat)
    requires Run(run, events) && n <= later < |run| && run[n].closed
    ensures run[later].closed && run[later].closeTasks == 1
    ensures |run[later].requests| == |run[n].requests| && |run[later].recoveries| == |run[n].recoveries|
    ensures Progress(run[later].closing) >= Progress(run[n].closing)
  {
    hide Enabled, After, Inv, ClosingFits;
    EveryRunKeepsInv(run, events, n);
    if n == later {
      OneTask(run[n]);
    } else {
      ClosedIsMonotone(run, events, n, later - 1);
      EveryRunKeepsInv(run, events, later - 1);
      OneTask(run[later - 1]);
      NothingNewOnceClosed(run[later - 1], events[later - 1]);
    }
  }

  lemma OneTask(s: State)
    requires Inv(s)
    ensures ClosingFits(s) && s.closeTasks == (if s.closed then 1 else 0)
  {
    hide Apart, Complete, LockFits;
  }

  /** After the closing task is over, no step touches a worker any more. */
  lemma NobodyUsesWorkersAfterClose(s: State, e: Event)
    requires ClosingFits(s) && Enabled(s, e) && s.closing.ClosingOver?
    ensures After(s, e).workers == s.workers && After(s, e).closing == s.closing
  {
  }

  /**
    When `_close` returns without an error, no worker has a process, every worker is closed, and
    that stays so in every later state.
  */
  lemma {:induction false} CleanCloseIsFinal(run: seq<State>, events: seq<Event>, n: nat, later: nat)
    requires Run(run, events) && n <= later < |run| && run[n].closing == ClosingOver(true)
    ensures run[later].closing == ClosingOver(true)
    ensures forall w :: 0 <= w < |run[later].workers| ==> run[later].workers[w] == WorkerState(false, true)
  {
    hide Enabled, After, Inv, ClosingFits;
    EveryRunKeepsInv(run, events, later);
    OneTask(run[later]);
    if n < later {
      CleanCloseIsFinal(run, events, n, later - 1);
      EveryRunKeepsInv(run, events, later - 1);
      OneTask(run[later - 1]);
      NobodyUsesWorkersAfterClose(run[later - 1], events[later - 1]);
    }
    CleanMeansGone(run[later]);
  }

  lemma CleanMeansGone(s: State)
    requires ClosingFits(s) && s.closing == ClosingOver(true)
    ensures WorkersGone(s)
  {
    hide RequestsOver, RecoveriesOver;
  }
}
