/**
  The sidecar object. Its methods are the pieces of its coroutines between two waits; each is one
  step of `Sidecar`, so slot conservation and orderly shutdown hold for every interleaving of them.
*/
module CommunityModelSidecar {
  import opened Outcomes
  import opened Sidecar

  datatype Refusal = NotReady

  class CommunityModelSidecar {
    var workers: seq<WorkerState>
    var available: seq<nat>
    var startup: Startup
    var loaded: nat
    var offered: bool
    var requests: seq<Request>
    var recoveries: seq<Recovery>
    var warming: Option<nat>
    var closed: bool
    var closing: Closing
    var closeTasks: nat
    var serverFailed: bool

    ghost function View(): State
      reads this
    {
      State(workers, available, startup, loaded, offered, requests, recoveries, warming, closed, closing, closeTasks,
        serverFailed)
    }

    ghost predicate Valid()
      reads this
    {
      Inv(View())
    }

    twostate predicate Took(e: Event)
      reads this
    {
      Enabled(old(View()), e) && View() == After(old(View()), e)
    }

    /** No worker moves. */
    twostate predicate Idle()
      reads this
    {
      workers == old(workers) && available == old(available) && loaded == old(loaded) && warming == old(warming)
    }

    /** Nothing that has to do with closing changes. */
    twostate predicate Serving()
      reads this
    {
      closed == old(closed) && closing == old(closing) && closeTasks == old(closeTasks)
    }

    constructor (n: nat)
      requires n > 0
      ensures Valid() && View() == Initial(n)
    {
      workers := seq(n, i => WorkerState(false, false));
      available, startup, loaded, offered := [], NotBegun, 0, false;
      requests, recoveries, warming := [], [], None;
      closed, closing, closeTasks, serverFailed := false, NoTask, 0, false;
    }

    /** Marks the service closed; the closing task is created once. */
    method BeginClosing()
      modifies this
      ensures View() == CloseBegun(old(View()))
      ensures closed && closing == (if old(closing) == NoTask then StoppingStartup else old(closing))
      ensures closeTasks == old(closeTasks) + (if old(closing) == NoTask then 1 else 0)
      ensures Idle() && startup == old(startup) && requests == old(requests) && recoveries == old(recoveries)
    {
      closed := true;
      if closing == NoTask {
        closing := StoppingStartup;
        closeTasks := closeTasks + 1;
      }
    }

    method RequestClose()
      requires Valid()
      modifies this
      ensures Valid() && Took(BeginClose)
    {
      hide Inv;
      ghost var s := View();
      BeginClosing();
      StepKeepsInv(s, BeginClose);
    }

    /** A sidecar is started only once, and never after it was closed. */
    method StartLoading() returns (started: bool)
      requires Valid()
      modifies this
      ensures Valid() && started == (!old(closed) && old(startup) == NotBegun)
      ensures if started then Took(BeginStartup) else View() == old(View())
      ensures Idle() && Serving() && startup == if started then Loading else old(startup)
    {
      hide Inv;
      if closed || startup != NotBegun {
        return false;
      }
      ghost var s := View();
      startup := Loading;
      StepKeepsInv(s, BeginStartup);
      return true;
    }

    /** One more worker is up and joins the queue; after the last one the socket is opened. */
    method LoadingAdvances()
      requires Valid() && startup == Loading && loaded <= |workers|
      modifies this
      ensures Valid() && Took(if old(loaded) < |old(workers)| then WorkerReady else OpenSocket)
      ensures Serving() && workers == old(workers) && requests == old(requests) && recoveries == old(recoveries)
      ensures if old(loaded) < |workers|
              then available == old(available) + [old(loaded)] && loaded == old(loaded) + 1 && startup == Loading
              else Idle() && startup == StartupOver && offered
    {
      hide Inv;
      ghost var s := View();
      if loaded < |workers| {
        available := available + [loaded];
        loaded := loaded + 1;
        StepKeepsInv(s, WorkerReady);
      } else {
        startup, offered := StartupOver, true;
        StepKeepsInv(s, OpenSocket);
      }
    }

    method LoadingFails()
      requires Valid() && startup == Loading
      modifies this
      ensures Valid() && Took(StartupFails)
      ensures Idle() && Serving() && startup == StartupOver && offered == old(offered)
    {
      hide Inv;
      ghost var s := View();
      startup := StartupOver;
      StepKeepsInv(s, StartupFails);
    }

    /** A request arrives; it is turned away unless the socket is open. */
    method Accept() returns (r: Result<nat, Refusal>)
      requires Valid()
      modifies this
      ensures Valid() && r.Ok? == (!old(closed) && old(offered))
      ensures if r.Ok? then r.value == |old(requests)| && Took(Arrive) else View() == old(View())
      ensures Idle() && Serving() && requests == if r.Ok? then old(requests) + [Waiting] else old(requests)
    {
      hide Inv;
      if closed || !offered {
        return Err(NotReady);
      }
      ghost var s := View();
      r := Ok(|requests|);
      requests := requests + [Waiting];
      StepKeepsInv(s, Arrive);
    }

    /** The queue hands the request a worker, which it uses only if the service is still open. */
    method Take(i: nat)
      requires Valid() && RequestIs(View(), i, Waiting) && available != []
      modifies this
      ensures Valid() && Took(TakeSlot(i))
      ensures old(available) == [old(available)[0]] + available
      ensures requests == old(requests)[i := if closed then Answered else Running(old(available)[0])]
      ensures closed == old(closed) && recoveries == old(recoveries)
    {
      hide Inv;
      ghost var s := View();
      var worker := available[0];
      available := available[1..];
      requests := requests[i := if closed then Answered else Running(worker)];
      StepKeepsInv(s, TakeSlot(i));
    }

    method GiveUp(i: nat)
      requires Valid() && RequestIs(View(), i, Waiting)
      modifies this
      ensures Valid() && Took(GiveUpWaiting(i))
      ensures Idle() && Serving() && requests == old(requests)[i := Answered]
    {
      hide Inv;
      ghost var s := View();
      requests := requests[i := Answered];
      StepKeepsInv(s, GiveUpWaiting(i));
    }

    /** The worker's translation has returned or has raised. */
    method FinishTranslation(i: nat, succeeded: bool)
      requires Valid() && i < |requests| && requests[i].Running? && requests[i].worker < |workers|
      modifies this
      ensures Valid() && Took(if succeeded then Deliver(i) else Fail(i))
      ensures requests == old(requests)[i := Answered] && workers == old(workers)
      ensures
        var w := old(requests)[i].worker;
        && available == (if succeeded then old(available) + [w] else old(available))
        && recoveries == (if !succeeded && !old(closed) && !workers[w].closed
                          then old(recoveries) + [Recovery(w, WaitingForLock)] else old(recoveries))
        && closed == (old(closed) || (!succeeded && workers[w].closed))
    {
      hide Inv;
      ghost var s := View();
      var worker := requests[i].worker;
      requests := requests[i := Answered];
      if succeeded {
        available := available + [worker];
      } else if workers[worker].closed {
        BeginClosing();
      } else if !closed {
        recoveries := recoveries + [Recovery(worker, WaitingForLock)];
      }
      StepKeepsInv(s, if succeeded then Deliver(i) else Fail(i));
    }

    /** The recovery has the recovery lock. */
    method EnterRecovery(i: nat)
      requires Valid() && RecoveryIs(View(), i, WaitingForLock) && warming == None
      modifies this
      ensures Valid() && Took(LockRecovery(i))
      ensures available == old(available) && requests == old(requests) && closed == old(closed)
      ensures |recoveries| == |old(recoveries)| && recoveries[i].worker == old(recoveries)[i].worker
      ensures recoveries == old(recoveries)[i := recoveries[i]]
      ensures if closed then recoveries[i].phase == Over && warming == None
              else recoveries[i].phase == Warming && warming == Some(i)
    {
      hide Inv;
      ghost var s := View();
      if closed {
        recoveries := recoveries[i := recoveries[i].(phase := Over)];
      } else {
        recoveries := recoveries[i := recoveries[i].(phase := Warming)];
        warming := Some(i);
      }
      StepKeepsInv(s, LockRecovery(i));
    }

    /** The worker is warm again and rejoins the queue, or reloading failed and the service closes. */
    method LeaveRecovery(i: nat, succeeded: bool)
      requires Valid() && RecoveryIs(View(), i, Warming)
      modifies this
      ensures Valid() && Took(if succeeded then FinishRecovery(i) else RecoveryFails(i))
      ensures requests == old(requests) && warming == None
      ensures recoveries == old(recoveries)[i := Recovery(old(recoveries)[i].worker, Over)]
      ensures available == if succeeded && !old(closed) then old(available) + [old(recoveries)[i].worker]
              else old(available)
      ensures closed == (old(closed) || !succeeded)
    {
      hide Inv;
      ghost var s := View();
      var worker := recoveries[i].worker;
      recoveries := recoveries[i := recoveries[i].(phase := Over)];
      warming := None;
      if !succeeded {
        BeginClosing();
      } else if !closed {
        available := available + [worker];
      }
      StepKeepsInv(s, if succeeded then FinishRecovery(i) else RecoveryFails(i));
    }

    /** The closing task resumes after whatever it was waiting for. */
    method CloseAdvances(failed: bool)
      requires Valid() && Enabled(View(), NextOfClosing(closing, failed))
      requires closing == StoppingStartup || closing == ClosingServer || closing == DrainingRequests
               || closing == DrainingRecoveries
      modifies this
      ensures Valid() && Took(NextOfClosing(old(closing), failed))
      ensures Idle() && closed == old(closed) && requests == old(requests) && recoveries == old(recoveries)
      ensures old(closing) == StoppingStartup ==> closing == ClosingServer && startup != Loading
      ensures old(closing) == ClosingServer ==> closing == DrainingRequests && serverFailed == failed
      ensures old(closing) == DrainingRequests ==>
                closing == DrainingRecoveries && forall i :: 0 <= i < |requests| ==> requests[i] == Answered
      ensures old(closing) == DrainingRecoveries ==>
                closing == ClosingWorkers({}, true)
                && forall i :: 0 <= i < |recoveries| ==> recoveries[i].phase == Over
    {
      hide Inv;
      ghost var s := View();
      ghost var e := NextOfClosing(closing, failed);
      if closing == StoppingStartup {
        closing := ClosingServer;
      } else if closing == ClosingServer {
        serverFailed := failed;
        closing := DrainingRequests;
      } else if closing == DrainingRequests {
        closing := DrainingRecoveries;
      } else {
        closing := ClosingWorkers({}, true);
      }
      StepKeepsInv(s, e);
    }

    method RecoveryCanceled(i: nat)
      requires Valid() && Enabled(View(), CancelRecovery(i))
      modifies this
      ensures Valid() && Took(CancelRecovery(i)) && Serving() && available == old(available)
      ensures |recoveries| == |old(recoveries)| && i < |recoveries|
      ensures recoveries == old(recoveries)[i := Recovery(old(recoveries)[i].worker, Over)]
      ensures warming == if old(warming) == Some(i) then None else old(warming)
    {
      hide Inv;
      ghost var s := View();
      recoveries := recoveries[i := recoveries[i].(phase := Over)];
      if warming == Some(i) {
        warming := None;
      }
      StepKeepsInv(s, CancelRecovery(i));
    }

    method WorkerReaped(w: nat, reaped: bool)
      requires Valid() && Enabled(View(), WorkerClosed(w, reaped))
      modifies this
      ensures Valid() && Took(WorkerClosed(w, reaped)) && available == old(available) && old(closing).ClosingWorkers?
      ensures |workers| == |old(workers)| && w < |workers|
      ensures workers == old(workers)[w := WorkerState(old(workers)[w].process && !reaped, true)]
      ensures closing == ClosingWorkers(old(closing).done + {w}, old(closing).ok && reaped)
    {
      hide Inv;
      ghost var s := View();
      workers := workers[w := WorkerState(workers[w].process && !reaped, true)];
      closing := ClosingWorkers(closing.done + {w}, closing.ok && reaped);
      StepKeepsInv(s, WorkerClosed(w, reaped));
    }

    /** The closing task returns normally or raises. */
    method CloseReturns() returns (ok: bool)
      requires Valid() && Enabled(View(), FinishClose)
      modifies this
      ensures Valid() && Took(FinishClose) && closing == ClosingOver(ok)
      ensures ok ==> forall w :: 0 <= w < |workers| ==> workers[w] == WorkerState(false, true)
      ensures old(closing).ClosingWorkers? && Idle() && ok == (old(closing).ok && !serverFailed)
    {
      hide Inv;
      ghost var s := View();
      ok := closing.ok && !serverFailed;
      closing := ClosingOver(ok);
      StepKeepsInv(s, FinishClose);
      OneTask(View());
      if ok {
        CleanMeansGone(View());
      }
    }
  }

  /** The event that ends the present stage of the closing task. */
  ghost function NextOfClosing(closing: Closing, failed: bool): Event {
    match closing
    case StoppingStartup => StartupStopped
    case ClosingServer => ServerClosed(failed)
    case DrainingRequests => RequestsDrained
    case _ => RecoveriesDrained
  }
}
