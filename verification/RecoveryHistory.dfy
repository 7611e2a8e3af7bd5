/**
  Histories of a recovery that mix runs stopped within a boot with machine crashes. Artifacts are
  never lost; a plan can be, and then every later `prepare` is refused. When that has happened, and
  from which disks it still can, is decided exactly.
*/
module RecoveryHistory {
  import opened Outcomes
  import opened RecoveryJournal
  import opened Disk
  import opened RecoverySpec
  import opened RecoveryProgress
  import opened RecoveryChecks
  import opened RecoveryCrash
  import opened RecoveryOutcome

  // ----- a lost plan -----

  /** The journal has no plan, but an artifact of the plan that was once made is in quarantine. */
  ghost predicate PlanLost(d: State, x: Case) {
    d.journal == Some(x.j) && AnyQuarantined(d.live, x.job)
  }

  ghost predicate AnyQuarantined(t: Tree, job: Job) {
    exists i :: 0 <= i < |job.plan| && job.plan[i].target in t
  }

  /** Once an artifact has been moved, no plan can be made any more. */
  lemma NoPlanOnceMoved(t: Tree, x: Case)
    requires x.Valid() && AnyQuarantined(t, x.job)
    ensures MakePlan(t, x.c.socket, x.j).Err?
  {
    hide Case.Valid, PlanItems, PlanItem, BindingError, Metadata, PlainPath, TargetOf;
    PlanComesFromItems(x);
    var items := Items(x.c.socket, x.j.scratches);
    PlanItemsFacts(t, x.j.identity.boot, items);
    var i :| 0 <= i < |x.job.plan| && x.job.plan[i].target in t;
    assert FromItem(x, i);
    MovedItemCannotBePlanned(t, x.j.identity.boot, items[i]);
  }

  lemma MovedItemCannotBePlanned(t: Tree, boot: nat, item: Item)
    requires TargetOf(boot, item.source) in t
    ensures PlanItem(t, boot, item).Err?
  {
  }

  /** A tree of the recovery in which nothing has been moved is the tree the plan was made in. */
  lemma NothingQuarantined(t: Tree, job: Job)
    requires Sound(job) && Safe(t, job) && !AnyQuarantined(t, job)
    ensures t == job.t0
  {
    forall p
      ensures (p in t <==> p in job.t0) && (p in t ==> t[p] == job.t0[p])
    {
      if Planned(job, p) {
        var i :| 0 <= i < |job.plan| && (p == job.plan[i].source || p == job.plan[i].target);
        SoundAt(job, i);
        NotMoved(t, job, i);
      }
    }
  }

  lemma NotMoved(t: Tree, job: Job, i: nat)
    requires Safe(t, job) && i < |job.plan| && SoundEntry(job, job.plan[i]) && job.plan[i].target !in t
    ensures
      var e := job.plan[i];
      && e.target !in job.t0 && (e.source in t <==> e.source in job.t0)
      && (e.source in t ==> t[e.source] == job.t0[e.source])
  {
    hide ElsewhereUnchanged;
    assert AtSome(t, job, job.plan[i]);
  }

  lemma WithoutPlanButNotLost(d: State, x: Case)
    requires x.Valid() && WithoutPlan(d, x) && !PlanLost(d, x)
    ensures Waiting(d, x)
  {
    hide Case.Valid, Safe, Sound, AnyQuarantined, SettledUpTo, UnsyncedAt;
    PlanIsSound(x);
    NothingQuarantined(d.live, x.job);
  }

  lemma LostIsRefused(d: State, x: Case, identity: Identity)
    requires x.Valid() && LaterBoot(x, identity) && PlanLost(d, x)
    ensures Prepare(d, x.c, identity).outcome.Refused? && Prepare(d, x.c, identity).states == []
  {
    NoPlanOnceMoved(d.live, x);
    hide MakePlan, Placed, AnyQuarantined;
  }

  // ----- one run, one crash -----

  /**
    From every disk that stops and crashes can lead to, `prepare` reaches the end state exactly when
    the plan is not lost, and is refused without touching the disk when it is.
  */
  lemma PrepareFromReached(d: State, x: Case, identity: Identity)
    requires x.Valid() && LaterBoot(x, identity) && Reached(d, x)
    ensures
      var r := Prepare(d, x.c, identity);
      && (if PlanLost(d, x) then r.outcome.Refused? && r.states == []
          else r.outcome == Done && EndState(Last(d, r.states), x))
      && forall i :: 0 <= i < |r.states| ==> Reached(r.states[i], x)
  {
    hide Case.Valid, Prepare, Waiting, PlanLost, EndState, LaterBoot, InProgress;
    if PlanLost(d, x) {
      LostIsRefused(d, x, identity);
    } else {
      if WithoutPlan(d, x) {
        WithoutPlanButNotLost(d, x);
      }
      RerunReachesTheEndState(d, x, identity);
    }
  }

  lemma CrashFromReached(d: State, after: State, x: Case)
    requires Reached(d, x) && CrashesTo(d, after)
    ensures Reached(after, x) && after.journal == after.durableJournal
  {
    CrashKeepsProgress(d, after, x.job);
    hide InProgress, AllSynced;
  }

  // ----- histories -----

  /** In some later boot `prepare` runs for `n` operations; then it is stopped, or the machine crashes. */
  ghost predicate HaltedAt(d: State, after: State, x: Case, identity: Identity, n: nat) {
    && LaterBoot(x, identity) && n <= |Prepare(d, x.c, identity).states|
    && var stopped := After(d, Prepare(d, x.c, identity).states, n);
       after == stopped || CrashesTo(stopped, after)
  }

  ghost predicate Halted(d: State, after: State, x: Case) {
    exists identity, n :: HaltedAt(d, after, x, identity, n)
  }

  ghost predicate History(history: seq<State>, x: Case) {
    && history != [] && Reached(history[0], x)
    && forall k :: 0 <= k < |history| - 1 ==> Halted(history[k], history[k + 1], x)
  }

  lemma HaltKeepsReached(d: State, after: State, x: Case)
    requires x.Valid() && Reached(d, x) && Halted(d, after, x)
    ensures Reached(after, x)
  {
    hide Case.Valid, Prepare, Reached, PlanLost, EndState, CrashesTo, LaterBoot;
    var identity, n :| HaltedAt(d, after, x, identity, n);
    PrepareFromReached(d, x, identity);
    var stopped := After(d, Prepare(d, x.c, identity).states, n);
    if after != stopped {
      CrashFromReached(stopped, after, x);
    }
  }

  lemma {:induction false} HistoryStaysReached(x: Case, history: seq<State>, i: nat)
    requires x.Valid() && History(history, x) && i < |history|
    ensures Reached(history[i], x)
  {
    hide Case.Valid, Reached, Halted;
    if i != 0 {
      HistoryStaysReached(x, history, i - 1);
      assert Halted(history[i - 1], history[i - 1 + 1], x);
      HaltKeepsReached(history[i - 1], history[i], x);
    }
  }

  /**
    Whatever mixture of stops and machine crashes a recovery has been through: no artifact is lost
    and nothing outside the plan has changed, even when the plan is lost; and the next `prepare`
    completes the recovery if and only if the plan is not lost.
  */
  lemma EveryHistoryKeepsTheArtifacts(x: Case, history: seq<State>, i: nat)
    requires x.Valid() && History(history, x) && i < |history|
    ensures forall k :: 0 <= k < |x.job.plan| ==>
              InOnePlace(history[i].live, x.job, x.job.plan[k]) && InOnePlace(history[i].durable, x.job, x.job.plan[k])
    ensures ElsewhereUnchanged(history[i].live, x.job) && ElsewhereUnchanged(history[i].durable, x.job)
    ensures forall identity :: LaterBoot(x, identity) ==>
              var r := Prepare(history[i], x.c, identity);
              if PlanLost(history[i], x) then r.outcome.Refused? && r.states == []
              else r.outcome == Done && EndState(Last(history[i], r.states), x)
  {
    hide Case.Valid, Reached, History, Prepare, PlanLost, EndState, InOnePlace, ElsewhereUnchanged, LaterBoot;
    HistoryStaysReached(x, history, i);
    ArtifactsAreNeverLost(history[i], x);
    forall identity | LaterBoot(x, identity)
      ensures
        var r := Prepare(history[i], x.c, identity);
        if PlanLost(history[i], x) then r.outcome.Refused? && r.states == []
        else r.outcome == Done && EndState(Last(history[i], r.states), x)
    {
      PrepareFromReached(history[i], x, identity);
    }
  }

  lemma LostIsWithoutPlan(d: State, x: Case)
    requires x.Valid() && Reached(d, x) && PlanLost(d, x)
    ensures WithoutPlan(d, x)
  {
    hide Placed, MakePlan, SameScratches, InProgress, AnyQuarantined, AllSynced;
  }

  lemma LostIsFrozen(d: State, after: State, x: Case)
    requires x.Valid() && Reached(d, x) && PlanLost(d, x) && Halted(d, after, x)
    ensures after.live == d.live && PlanLost(after, x)
  {
    hide Case.Valid, Prepare, LaterBoot, AnyQuarantined, InProgress, PerformAll;
    var identity, n :| HaltedAt(d, after, x, identity, n);
    LostIsRefused(d, x, identity);
    LostIsWithoutPlan(d, x);
    if after != d {
      var kept :| Selection(kept, d.pending) && after.live == PerformAll(d.durable, kept);
      SelectionOfNone(kept);
      NothingPending(d.durable, []);
    }
  }

  /** A lost plan stays lost, and the artifacts stay where they are: neither reruns nor reboots help. */
  lemma {:induction false} LostStaysLost(x: Case, history: seq<State>, i: nat, k: nat)
    requires x.Valid() && History(history, x) && i <= k < |history| && PlanLost(history[i], x)
    ensures PlanLost(history[k], x) && history[k].live == history[i].live
  {
    hide Case.Valid, Reached, Halted, PlanLost;
    if i < k {
      LostStaysLost(x, history, i, k - 1);
      HistoryStaysReached(x, history, k - 1);
      assert Halted(history[k - 1], history[k - 1 + 1], x);
      LostIsFrozen(history[k - 1], history[k], x);
    }
  }

  // ----- exactly when a run is restartable -----

  /** After `n` operations of the run from `d` the machine crashes to `after`, and later boots again. */
  ghost predicate CrashAndBoot(d: State, x: Case, identity: Identity, n: nat, after: State, later: Identity) {
    && n <= |Prepare(d, x.c, identity).states|
    && CrashesTo(After(d, Prepare(d, x.c, identity).states, n), after) && LaterBoot(x, later)
  }

  /** Every crash during the run of `prepare` from `d` leaves a disk on which `prepare` later succeeds. */
  ghost predicate RestartableThroughout(d: State, x: Case, identity: Identity) {
    forall n: nat, after, later ::
      CrashAndBoot(d, x, identity, n, after, later) ==> Prepare(after, x.c, later).outcome == Done
  }

  /** A run that finds a durable journal is restartable from each of its crash points. */
  lemma DurableJournalIsRestartable(d: State, x: Case, identity: Identity)
    requires x.Valid() && LaterBoot(x, identity) && Recoverable(d, x)
    ensures RestartableThroughout(d, x, identity)
  {
    hide Case.Valid, Prepare, Waiting, PlanUnsynced, Underway, Complete, CrashesTo, LaterBoot, OnTheWay, Recoverable;
    PrepareRecovers(d, x, identity);
    RecoverableIsOnTheWay(d, x);
    forall n: nat, after, later | CrashAndBoot(d, x, identity, n, after, later)
      ensures Prepare(after, x.c, later).outcome == Done
    {
      CrashLeavesRecoverable(After(d, Prepare(d, x.c, identity).states, n), after, x);
      PrepareRecovers(after, x, later);
    }
  }

  lemma RecoverableIsOnTheWay(d: State, x: Case)
    requires Recoverable(d, x)
    ensures OnTheWay(d, x)
  {
    hide Waiting, Underway;
  }

  /** The plan always has a first artifact to move: at the latest the first scratch directory. */
  lemma FirstPresentEntry(x: Case) returns (m: nat)
    requires x.Valid()
    ensures m < |x.job.plan| && m <= 2 && x.job.plan[m].metadata.Some?
    ensures forall i :: 0 <= i < m ==> x.job.plan[i].metadata.None?
  {
    hide Case.Valid, FromItem;
    PlanComesFromItems(x);
    ValidParts(x);
    ThirdIsDirectory(x);
    m := if x.job.plan[0].metadata.Some? then 0 else if x.job.plan[1].metadata.Some? then 1 else 2;
  }

  lemma ThirdIsDirectory(x: Case)
    requires |x.job.plan| == |x.j.scratches| + 2 && |x.job.plan| > 2 && FromItem(x, 2)
    ensures x.job.plan[2].metadata.Some?
  {
    hide BindingError, Metadata, TargetOf, PlainPath;
  }

  /** The execute pass over an untouched tree starts by renaming the first artifact that is there. */
  lemma {:induction false} FirstOperation(d: State, x: Case, m: nat, k: nat)
    requires x.Valid() && d.live == d.durable == x.job.t0 && d.pending == [] && d.nextId >= x.job.base
    requires m < |x.job.plan| && x.job.plan[m].metadata.Some? && k <= |x.job.plan|
    requires forall i :: 0 <= i < m ==> x.job.plan[i].metadata.None?
    ensures
      var r := Execute(d, x.job.plan[..k]);
      if k <= m then r == Trace([], Done)
      else r.states != [] && r.states[0] == Renamed(d, x.job.plan[m].source, x.job.plan[m].target)
  {
    hide Case.Valid, Execute, ApplyEntry, InProgress, Sound, Renamed, Last, Steps, Bound, Items;
    if k == 0 {
      ExecuteNothing(d, x.job.plan);
    } else {
      LastOfNothing(d);
      FirstOperation(d, x, m, k - 1);
      PlanIsSound(x);
      AllUntouched(x, d);
      ExecuteProgress(d, x.job, k - 1);
      ExecuteNext(d, x.job.plan, k - 1);
      if k - 1 <= m {
        UntouchedEntryTrace(d, x.job, k - 1);
      }
    }
  }

  lemma UntouchedEntryTrace(d: State, job: Job, k: nat)
    requires Sound(job) && d.live == job.t0 && k < |job.plan|
    ensures
      var r := ApplyEntry(d, job.plan[k], true);
      if job.plan[k].metadata.None? then r == Trace([], Done)
      else r.states != [] && r.states[0] == Renamed(d, job.plan[k].source, job.plan[k].target)
  {
    hide Sound, Metadata, At, SoundEntry, Settle;
    var e := job.plan[k];
    SoundAt(job, k);
    UntouchedInitially(job, e);
    LooksLike(d.live, job, e);
    if e.metadata.Some? {
      MovedEntryTrace(d, e);
    }
  }

  lemma RunStartsWith(d: State, x: Case, m: nat)
    requires x.Valid() && PlanUnsynced(d, x) && m < |x.job.plan| && x.job.plan[m].metadata.Some?
    requires forall i :: 0 <= i < m ==> x.job.plan[i].metadata.None?
    ensures
      var r := RunPlan(d, x.c, x.j, x.job.plan);
      r.states != [] && r.states[0] == Renamed(d, x.job.plan[m].source, x.job.plan[m].target)
  {
    hide Case.Valid, Execute, DryPass, InProgress, Renamed, Sound, Bound, Items;
    AllUntouched(x, d);
    PlanIsSound(x);
    var plan, items := x.job.plan, Items(x.c.socket, x.j.scratches);
    DryPassPasses(d, x.job, items, x.j.identity.boot, |plan|);
    FirstOperation(d, x, m, |plan|);
    assert plan[..|plan|] == plan && items[..|plan|] == items;
  }

  /** So the first operation of a run that finds its plan unsynced moves an artifact, still without the barrier. */
  lemma FirstOperationMoves(d: State, x: Case, identity: Identity)
    requires x.Valid() && LaterBoot(x, identity) && PlanUnsynced(d, x)
    ensures
      var states := Prepare(d, x.c, identity).states;
      && states != [] && InProgress(states[0], x.job, 0)
      && AnyQuarantined(states[0].live, x.job) && states[0].durableJournal == Some(x.j)
  {
    hide Case.Valid, Prepare, RunPlan, Perform, LaterBoot, InProgress, Sound, At;
    PlanIsSound(x);
    AllUntouched(x, d);
    var m := FirstPresentEntry(x);
    PrepareUnderway(d, x, identity);
    RunStartsWith(d, x, m);
    RunPlanCompletes(d, x);
    RenamedHasTarget(d.live, x.job, m);
  }

  lemma RenamedHasTarget(t: Tree, job: Job, m: nat)
    requires t == job.t0 && Sound(job) && m < |job.plan| && job.plan[m].metadata.Some?
    ensures AnyQuarantined(Perform(t, Rename(job.plan[m].source, job.plan[m].target)), job)
  {
    SoundAt(job, m);
    assert job.plan[m].target in Perform(t, Rename(job.plan[m].source, job.plan[m].target));
  }

  /** A crash that keeps every unsynced operation and the older journal. */
  function AllKept(d: State): State {
    State(d.live, d.live, [], d.durableJournal, d.durableJournal, d.home, d.nextId)
  }

  lemma AllKeptIsACrash(d: State, job: Job)
    requires InProgress(d, job, 0)
    ensures CrashesTo(d, AllKept(d))
  {
    hide Safe, SettledUpTo, At, Perform;
    if AllSynced(d) {
      NothingPending(d.durable, []);
      assert Selection([], d.pending);
    } else {
      var i :| 0 <= i && UnsyncedAt(d, job, i);
      assert d.pending == [d.pending[0]];
      OnePending(d.durable, d.pending[0], []);
      SelectionOfItself(d.pending[0]);
    }
    hide Selection, PerformAll;
  }

  lemma SelectionOfItself(op: Op)
    ensures Selection([op], [op])
  {
    var ops := [op];
    assert ops[..|ops| - 1] == [] && Selection([], []);
  }

  /** An unsynced operation has moved its artifact. */
  lemma UnsyncedHasMoved(d: State, job: Job)
    requires InProgress(d, job, 0)
    ensures AllSynced(d) || AnyQuarantined(d.live, job)
  {
    hide Safe, SettledUpTo, Perform;
    if !AllSynced(d) {
      var i :| 0 <= i && UnsyncedAt(d, job, i);
      assert job.plan[i].target in d.live;
    }
  }

  /** So where nothing is in quarantine the run has not begun to move anything. */
  lemma UnmovedIsUnsynced(d: State, x: Case)
    requires x.Valid() && PlanWritten(d, x) && d.durableJournal == Some(x.j) && !AnyQuarantined(d.live, x.job)
    ensures PlanUnsynced(d, x)
  {
    hide Case.Valid, Safe, Sound, SettledUpTo, AnyQuarantined;
    PlanIsSound(x);
    NothingQuarantined(d.live, x.job);
    UnsyncedHasMoved(d, x.job);
  }

  /**
    A run that finds its plan unsynced does not repeat the journal's own barrier, so a crash can
    keep a rename and lose the plan. Every later `prepare` is then refused.
  */
  lemma UnsyncedPlanCanStrand(d: State, x: Case, identity: Identity)
    requires x.Valid() && LaterBoot(x, identity) && PlanWritten(d, x) && d.durableJournal == Some(x.j)
    ensures exists n: nat, after ::
              && CrashAndBoot(d, x, identity, n, after, identity)
              && forall later :: LaterBoot(x, later) ==>
                   Prepare(after, x.c, later).outcome.Refused? && Prepare(after, x.c, later).states == []
  {
    hide Case.Valid, Prepare, LaterBoot, CrashesTo, InProgress, AnyQuarantined, PlanUnsynced;
    var n := if AnyQuarantined(d.live, x.job) then 0 else 1;
    if n == 1 {
      UnmovedIsUnsynced(d, x);
      FirstOperationMoves(d, x, identity);
    }
    var stopped := After(d, Prepare(d, x.c, identity).states, n);
    var after := AllKept(stopped);
    AllKeptIsACrash(stopped, x.job);
    assert CrashAndBoot(d, x, identity, n, after, identity) && PlanLost(after, x);
    forall later | LaterBoot(x, later)
      ensures Prepare(after, x.c, later).outcome.Refused? && Prepare(after, x.c, later).states == []
    {
      LostIsRefused(after, x, later);
    }
  }

  lemma LostIsNotRestartable(d: State, x: Case, identity: Identity)
    requires x.Valid() && LaterBoot(x, identity) && Reached(d, x) && PlanLost(d, x)
    ensures !RestartableThroughout(d, x, identity)
  {
    hide Case.Valid, Prepare, LaterBoot, CrashesTo, AnyQuarantined, AllKept;
    LostIsRefused(d, x, identity);
    LostIsWithoutPlan(d, x);
    AllKeptIsACrash(d, x.job);
    AllKeptLooks(d);
    LostIsRefused(AllKept(d), x, identity);
    assert CrashAndBoot(d, x, identity, 0, AllKept(d), identity);
  }

  lemma AllKeptLooks(d: State)
    ensures AllKept(d).live == d.live && AllKept(d).journal == d.durableJournal
  {
  }

  lemma ReachedCases(d: State, x: Case)
    requires x.Valid() && Reached(d, x)
    ensures d.journal == d.durableJournal && !PlanLost(d, x) ==> Recoverable(d, x)
    ensures d.journal != d.durableJournal ==> PlanWritten(d, x) && d.durableJournal == Some(x.j)
  {
    hide Case.Valid, InProgress, PlanLost, Waiting;
    if WithoutPlan(d, x) && !PlanLost(d, x) {
      WithoutPlanButNotLost(d, x);
    }
  }

  /**
    Wherever stops and crashes have led: recovery restarts from every crash point of the next run
    exactly when the journal that run finds has reached the disk and its plan is not lost already.
    The one way to find the journal otherwise is a previous run in the same boot that stopped
    between replacing the journal and syncing the journal's directory.
  */
  lemma RestartableExactlyWhenJournalIsDurable(d: State, x: Case, identity: Identity)
    requires x.Valid() && LaterBoot(x, identity) && Reached(d, x)
    ensures RestartableThroughout(d, x, identity) <==> d.journal == d.durableJournal && !PlanLost(d, x)
  {
    hide Case.Valid, Prepare, PlanWritten, CrashAndBoot, LaterBoot, Reached, Recoverable, PlanLost;
    ReachedCases(d, x);
    if PlanLost(d, x) {
      LostIsNotRestartable(d, x, identity);
    } else if d.journal == d.durableJournal {
      DurableJournalIsRestartable(d, x, identity);
    } else {
      UnsyncedPlanCanStrand(d, x, identity);
    }
  }
}
