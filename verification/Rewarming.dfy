/**
  What the service does with a worker after a failed translation, over whole runs: while the service is
  open, nobody gets that worker before a recovery of it has finished. And in which order workers wait.
*/
module Rewarming {
  import opened Outcomes
  import opened Sidecar

  // ----- a failed translation -----

  /**
    The failure of a translation in an open service schedules one recovery of that very worker, or
    closes the service if the worker has closed itself; in neither case is the worker offered.
  */
  lemma FailureIsHandled(s: State, i: nat)
    requires Enabled(s, Fail(i)) && !s.closed
    ensures
      var s', w := After(s, Fail(i)), s.requests[i].worker;
      && s'.available == s.available && s'.requests == s.requests[i := Answered]
      && (if s.workers[w].closed then s'.closed && s'.recoveries == s.recoveries
          else !s'.closed && s'.recoveries == s.recoveries + [Recovery(w, WaitingForLock)])
  {
  }

  /** The worker is up, but neither queued nor running a request. */
  ghost predicate Away(s: State, w: nat) {
    w < s.loaded && w !in s.available && Running(w) !in s.requests
  }

  ghost predicate FinishesRecoveryOf(s: State, e: Event, w: nat) {
    e.FinishRecovery? && e.c < |s.recoveries| && s.recoveries[e.c].worker == w
  }

  lemma FailedIsAway(s: State, i: nat)
    requires Apart(s) && Enabled(s, Fail(i))
    ensures Away(After(s, Fail(i)), s.requests[i].worker)
  {
    hide Apart, InRecovery;
    Released(s, i);
  }

  /** Only the end of its own recovery brings such a worker back. */
  lemma AwayUntilRecovered(s: State, e: Event, w: nat)
    requires Enabled(s, e) && Away(s, w) && !FinishesRecoveryOf(s, e, w)
    ensures Away(After(s, e), w)
  {
    hide InUse, RequestsOver, RecoveriesOver, WorkerMayBecome;
    match e {
      case TakeSlot(i) => assert s.available == [s.available[0]] + s.available[1..];
      case Deliver(i) => assert s.requests[i] in s.requests;
      case _ =>
    }
  }

  lemma {:induction false} AwayUnlessRecovered(run: seq<State>, events: seq<Event>, n: nat, m: nat, w: nat)
    requires Run(run, events) && n <= m < |run| && Away(run[n], w)
    requires forall k :: n <= k < m ==> !FinishesRecoveryOf(run[k], events[k], w)
    ensures Away(run[m], w)
  {
    hide Enabled, After, Away, FinishesRecoveryOf;
    if n < m {
      AwayUnlessRecovered(run, events, n, m - 1, w);
      AwayUntilRecovered(run[m - 1], events[m - 1], w);
    }
  }

  /**
    Over every run: a worker whose translation has failed in an open service is queued or handed to a
    request again only after a recovery of this worker has finished in between.
  */
  lemma FailedWorkerIsRewarmedFirst(run: seq<State>, events: seq<Event>, n: nat, m: nat, i: nat)
    requires Run(run, events) && n < |events| && n < m < |run| && events[n] == Fail(i) && i < |run[n].requests|
    requires run[n].requests[i].Running?
    requires
      var w := run[n].requests[i].worker;
      w in run[m].available || Running(w) in run[m].requests
    ensures exists k :: n < k < m && FinishesRecoveryOf(run[k], events[k], run[n].requests[i].worker)
  {
    hide Enabled, After, Away, FinishesRecoveryOf, Inv;
    var w := run[n].requests[i].worker;
    EveryRunKeepsInv(run, events, n);
    InvIsApart(run[n]);
    FailedIsAway(run[n], i);
    if forall k :: n + 1 <= k < m ==> !FinishesRecoveryOf(run[k], events[k], w) {
      AwayUnlessRecovered(run, events, n + 1, m, w);
      AwayIsNeither(run[m], w);
    }
  }

  lemma InvIsApart(s: State)
    requires Inv(s)
    ensures Apart(s)
  {
    hide Apart, Complete, LockFits, ClosingFits;
  }

  lemma AwayIsNeither(s: State, w: nat)
    requires Away(s, w)
    ensures w !in s.available && Running(w) !in s.requests
  {
  }

  // ----- the queue -----

  /** Workers wait in a queue: they join at its end, and a request gets the one in front. */
  lemma FirstComeFirstServed(s: State, e: Event)
    requires Enabled(s, e)
    ensures
      var s' := After(s, e);
      || s'.available == s.available
      || (exists w :: s'.available == s.available + [w])
      || (e.TakeSlot? && s.available == [s.available[0]] + s'.available
          && s'.requests == s.requests[e.r := if s.closed then Answered else Running(s.available[0])])
  {
    hide InUse, RequestsOver, RecoveriesOver, WorkerMayBecome;
    match e {
      case TakeSlot(i) => assert s.available == [s.available[0]] + s.available[1..];
      case _ =>
    }
  }

  /** A recovery reloads its worker alone, and the worker joins the queue when the reload has succeeded. */
  lemma RecoveryIsHandled(s: State, c: nat)
    requires !s.closed && c < |s.recoveries| && s.recoveries[c].phase == Warming && LockFits(s)
    ensures forall k :: 0 <= k < |s.recoveries| && s.recoveries[k].phase == Warming ==> k == c
    ensures After(s, FinishRecovery(c)).available == s.available + [s.recoveries[c].worker]
    ensures !After(s, FinishRecovery(c)).closed
    ensures After(s, RecoveryFails(c)).available == s.available && After(s, RecoveryFails(c)).closed
  {
  }
}
