/**
  What the states of a recovery mean for the artifacts: where each one is at every moment, what the
  end state looks like, and that all completions agree.
*/
module RecoveryOutcome {
  import opened Outcomes
  import opened RecoveryJournal
  import opened Disk
  import opened RecoverySpec
  import opened RecoveryProgress
  import opened RecoveryChecks
  import opened RecoveryCrash
  import opened RecoveryRoundTrip

  // ----- one place for every artifact -----

  predicate StandsAt(t: Tree, p: Path, o: Object) {
    p in t && t[p].id == o.id && t[p] == o
  }

  /** The recorded object of an entry stands, whole, at its source or at its target, never at both. */
  ghost predicate InOnePlace(t: Tree, job: Job, e: Entry) {
    match e.metadata
    case None => e.source !in t && e.target !in t
    case Some(id) =>
      e.source in job.t0 && job.t0[e.source].id == id &&
      var o := job.t0[e.source];
      && (StandsAt(t, e.source, o) || StandsAt(t, e.target, o))
      && !(e.source in t && t[e.source].id == id && e.target in t && t[e.target].id == id)
  }

  lemma StageIsOnePlace(t: Tree, job: Job, e: Entry)
    requires SoundEntry(job, e) && AtSome(t, job, e)
    ensures InOnePlace(t, job, e)
  {
  }

  lemma SafeIsOnePlace(t: Tree, job: Job)
    requires Sound(job) && Safe(t, job)
    ensures forall i :: 0 <= i < |job.plan| ==> InOnePlace(t, job, job.plan[i])
  {
    hide At, AtSome, InOnePlace, SoundEntry;
    forall i | 0 <= i < |job.plan|
      ensures InOnePlace(t, job, job.plan[i])
    {
      SoundAt(job, i);
      assert AtSome(t, job, job.plan[i]);
      StageIsOnePlace(t, job, job.plan[i]);
    }
  }

  /**
    At every moment of a recovery, also of one that has lost its plan, for the running system and
    for whatever a crash would leave: each artifact is in exactly one of its two places with its
    original identity and contents, and every path outside the plan is as it was, so nothing has
    been overwritten.
  */
  lemma ArtifactsAreNeverLost(d: State, x: Case)
    requires x.Valid() && Reached(d, x)
    ensures forall i :: 0 <= i < |x.job.plan| ==>
              InOnePlace(d.live, x.job, x.job.plan[i]) && InOnePlace(d.durable, x.job, x.job.plan[i])
    ensures ElsewhereUnchanged(d.live, x.job) && ElsewhereUnchanged(d.durable, x.job)
  {
    PlanIsSound(x);
    hide Case.Valid, Sound, InOnePlace, At;
    SafeIsOnePlace(d.live, x.job);
    SafeIsOnePlace(d.durable, x.job);
  }

  // ----- no artifact inside another -----

  lemma AboveParent(p: Path, q: Path)
    requires q != [] && AtOrBelow(Parent(q), p)
    ensures AtOrBelow(q, p)
  {
    assert q[..|p|] == Parent(q)[..|p|] == p;
  }

  lemma ScratchAndSocketFiles(c: Config, s: Path)
    requires Placed(c) && s in c.scratches
    ensures !AtOrBelow(c.socket, s) && !AtOrBelow(s, c.socket)
    ensures s != Capacity(c.socket) ==> !AtOrBelow(Capacity(c.socket), s) && !AtOrBelow(s, Capacity(c.socket))
  {
    CapacityIsPlain(c.socket);
    if s != Capacity(c.socket) && AtOrBelow(Capacity(c.socket), s) {
      AboveParent(s, c.socket);
    }
  }

  lemma SocketAndCapacity(c: Config)
    requires Placed(c)
    ensures !AtOrBelow(c.socket, Capacity(c.socket)) && !AtOrBelow(Capacity(c.socket), c.socket)
  {
    CapacityIsPlain(c.socket);
    assert |c.socket| == |Capacity(c.socket)|;
    assert c.socket[..|c.socket|] == c.socket && Capacity(c.socket)[..|c.socket|] == Capacity(c.socket);
  }

  lemma ScratchPair(c: Config, i: nat, k: nat)
    requires Placed(c) && i < |c.scratches| && k < |c.scratches| && i != k
    ensures !AtOrBelow(c.scratches[k], c.scratches[i])
  {
    assert if i < k then Apart(c.scratches[i], c.scratches[k]) else Apart(c.scratches[k], c.scratches[i]);
  }

  /** Where the source of a plan entry comes from. */
  lemma SourceOf(x: Case, i: nat)
    requires SameScratches(x.j, x.c) && |x.job.plan| == |x.j.scratches| + 2 && i < |x.job.plan| && FromItem(x, i)
    ensures i == 0 ==> x.job.plan[i].source == x.c.socket
    ensures i == 1 ==> x.job.plan[i].source == Capacity(x.c.socket)
    ensures i >= 2 ==> x.job.plan[i].source == x.c.scratches[i - 2] && x.job.plan[i].source in x.c.scratches
  {
    hide BindingError, Metadata, TargetOf, PlainPath, Capacity;
  }

  /** Source items of a plan are pairwise separate: that is what the construction checks are for. */
  lemma ItemsAreApart(x: Case, i: nat, k: nat)
    requires x.Valid() && i < |x.job.plan| && k < |x.job.plan| && i != k
    ensures !AtOrBelow(x.job.plan[k].source, x.job.plan[i].source)
  {
    hide Placed, MakePlan, FromItem, Capacity, SameScratches, SoundEntry, Bound;
    PlanIsSound(x);
    PlanComesFromItems(x);
    assert FromItem(x, i) && FromItem(x, k);
    SourceOf(x, i);
    SourceOf(x, k);
    assert x.job.plan[i].source != x.job.plan[k].source;
    if i < 2 && k < 2 {
      SocketAndCapacity(x.c);
    } else if i < 2 {
      ScratchAndSocketFiles(x.c, x.job.plan[k].source);
    } else if k < 2 {
      ScratchAndSocketFiles(x.c, x.job.plan[i].source);
    } else {
      ScratchPair(x.c, i - 2, k - 2);
    }
  }

  /**
    Because scratch directories are not nested and hold no control file, no path of the plan lies
    below another one: moving one artifact carries no other artifact along.
  */
  lemma PlanPathsAreSeparate(x: Case, i: nat, k: nat)
    requires x.Valid() && i < |x.job.plan| && k < |x.job.plan|
    ensures i != k ==> !AtOrBelow(x.job.plan[k].source, x.job.plan[i].source)
    ensures i != k ==> !AtOrBelow(x.job.plan[k].target, x.job.plan[i].target)
    ensures !AtOrBelow(x.job.plan[k].target, x.job.plan[i].source)
            && !AtOrBelow(x.job.plan[k].source, x.job.plan[i].target)
  {
    hide Case.Valid, FromItem, SoundEntry, Bound;
    PlanIsSound(x);
    PlanComesFromItems(x);
    if i != k { ItemsAreApart(x, i, k); }
    assert FromItem(x, i) && FromItem(x, k);
    SeparateTargets(x, i, k);
  }

  lemma SeparateTargets(x: Case, i: nat, k: nat)
    requires |x.job.plan| == |x.j.scratches| + 2 && i < |x.job.plan| && k < |x.job.plan|
    requires FromItem(x, i) && FromItem(x, k)
    requires i != k ==>
             !AtOrBelow(x.job.plan[k].source, x.job.plan[i].source) && x.job.plan[i].source != x.job.plan[k].source
    ensures i != k ==> !AtOrBelow(x.job.plan[k].target, x.job.plan[i].target)
    ensures !AtOrBelow(x.job.plan[k].target, x.job.plan[i].source)
            && !AtOrBelow(x.job.plan[k].source, x.job.plan[i].target)
  {
    hide Items, BindingError, Metadata;
    var boot := x.j.identity.boot;
    var e, f := x.job.plan[i], x.job.plan[k];
    var n := |e.target| - 1;
    assert e.target[n] == Quarantine(boot, e.source) && f.target[|f.target| - 1] == Quarantine(boot, f.source);
    assert |f.target| == |f.source| && |e.target| == |e.source|;
    if AtOrBelow(f.target, e.source) && e.source != f.target {
      assert Parent(f.target) == Parent(f.source);
      AboveParent(e.source, f.source);
    }
  }

  // ----- the end state -----

  /** The disk of a completed recovery, in terms of the tree the plan was made in. */
  ghost predicate EndState(d: State, x: Case) {
    && AllSynced(d)
    && x.c.socket !in d.live && Capacity(x.c.socket) !in d.live
    && (forall s :: s in x.c.scratches ==>
         s in d.live && d.live[s].id >= x.job.base && d.live[s] == FreshDirectory(d.live[s].id))
    && (forall i :: 0 <= i < |x.job.plan| && x.job.plan[i].metadata.Some? ==>
          var e := x.job.plan[i];
          e.source in x.job.t0 && e.target in d.live && d.live[e.target] == x.job.t0[e.source])
    && (forall i :: 0 <= i < |x.job.plan| && x.job.plan[i].metadata.None? ==> x.job.plan[i].target !in d.live)
    && ElsewhereUnchanged(d.live, x.job)
  }

  lemma SettledEntry(t: Tree, job: Job, e: Entry)
    requires SoundEntry(job, e) && At(t, job, e, Settled)
    ensures e.kind != Directory ==> e.source !in t
    ensures e.kind == Directory ==>
            e.source in t && t[e.source].id >= job.base && t[e.source] == FreshDirectory(t[e.source].id)
    ensures e.metadata.Some? ==> e.source in job.t0 && e.target in t && t[e.target] == job.t0[e.source]
    ensures e.metadata.None? ==> e.target !in t
  {
  }

  lemma SettledAt(d: State, job: Job, k: nat)
    requires InProgress(d, job, |job.plan|) && k < |job.plan|
    ensures At(d.live, job, job.plan[k], Settled)
  {
    hide At;
  }

  lemma CompleteIsSynced(d: State, x: Case)
    requires InProgress(d, x.job, |x.job.plan|)
    ensures AllSynced(d) && ElsewhereUnchanged(d.live, x.job)
  {
    hide At, SettledUpTo, ElsewhereUnchanged;
  }

  /** A completed recovery has quarantined every artifact, recreated every scratch, and left nothing else changed. */
  lemma CompletionReachesTheEndState(d: State, x: Case)
    requires x.Valid() && InProgress(d, x.job, |x.job.plan|)
    ensures EndState(d, x)
  {
    hide Case.Valid, InProgress, At, SoundEntry, FromItem, Capacity, AllSynced, ElsewhereUnchanged;
    PlanIsSound(x);
    PlanComesFromItems(x);
    CompleteIsSynced(d, x);
    ValidParts(x);
    forall i | 0 <= i < |x.job.plan|
      ensures FromItem(x, i) && SoundEntry(x.job, x.job.plan[i]) && At(d.live, x.job, x.job.plan[i], Settled)
    {
      SoundAt(x.job, i);
      SettledAt(d, x.job, i);
    }
    hide Sound;
    forall i | 0 <= i < |x.job.plan|
      ensures var e := x.job.plan[i];
              && (e.metadata.Some? ==>
                   e.source in x.job.t0 && e.target in d.live && d.live[e.target] == x.job.t0[e.source])
              && (e.metadata.None? ==> e.target !in d.live)
    {
      SettledEntry(d.live, x.job, x.job.plan[i]);
    }
    EndStateSources(d, x);
  }

  lemma ValidParts(x: Case)
    requires x.Valid()
    ensures Placed(x.c) && SameScratches(x.j, x.c) && x.j.scratches != []
  {
    hide Placed, MakePlan, SameScratches;
  }

  lemma EndStateSources(d: State, x: Case)
    requires SameScratches(x.j, x.c) && |x.job.plan| == |x.j.scratches| + 2
    requires forall i :: 0 <= i < |x.job.plan| ==>
               FromItem(x, i) && SoundEntry(x.job, x.job.plan[i]) && At(d.live, x.job, x.job.plan[i], Settled)
    ensures x.c.socket !in d.live && Capacity(x.c.socket) !in d.live
    ensures forall s :: s in x.c.scratches ==>
              s in d.live && d.live[s].id >= x.job.base && d.live[s] == FreshDirectory(d.live[s].id)
  {
    hide At, SoundEntry, Capacity, BindingError, Metadata, TargetOf, PlainPath;
    SettledEntry(d.live, x.job, x.job.plan[0]);
    SettledEntry(d.live, x.job, x.job.plan[1]);
    assert FromItem(x, 0) && FromItem(x, 1);
    forall s | s in x.c.scratches
      ensures s in d.live && d.live[s].id >= x.job.base && d.live[s] == FreshDirectory(d.live[s].id)
    {
      var k :| 0 <= k < |x.c.scratches| && x.c.scratches[k] == s;
      assert FromItem(x, k + 2);
      SettledEntry(d.live, x.job, x.job.plan[k + 2]);
    }
  }

  // ----- runs that are only interrupted -----

  /** What runs that were stopped without a machine crash leave behind, whatever the journal's durability. */
  ghost predicate Resumable(d: State, x: Case) {
    Waiting(d, x) || (d.journal == Some(x.Planned()) && InProgress(d, x.job, 0))
  }

  lemma OnTheWayIsResumable(d: State, x: Case)
    requires x.Valid() && OnTheWay(d, x)
    ensures Resumable(d, x)
  {
    if PlanUnsynced(d, x) {
      AllUntouched(x, d);
    }
    hide Case.Valid, InProgress;
  }

  lemma ResumedRun(d: State, x: Case, states: seq<State>)
    requires d.journal == Some(x.Planned()) && Steps(states, x.job, 0) && AllSameJournal(d, states)
    ensures forall i :: 0 <= i < |states| ==> Resumable(states[i], x)
    ensures PlanWritten(d, x) ==> forall i :: 0 <= i < |states| ==> PlanWritten(states[i], x)
  {
    hide InProgress;
  }

  /**
    However often `prepare` is stopped between two operations, each rerun is accepted, keeps the
    disk resumable at every operation, and when left alone reaches the end state.
  */
  lemma RerunReachesTheEndState(d: State, x: Case, identity: Identity)
    requires x.Valid() && LaterBoot(x, identity) && Resumable(d, x)
    ensures
      var r := Prepare(d, x.c, identity);
      && r.outcome == Done
      && (forall i :: 0 <= i < |r.states| ==> Resumable(r.states[i], x))
      && (Reached(d, x) ==> forall i :: 0 <= i < |r.states| ==> Reached(r.states[i], x))
      && EndState(Last(d, r.states), x)
  {
    hide Case.Valid, Waiting, PlanUnsynced, Prepare, RunPlan, Steps, Last, AllSameJournal, InProgress, LaterBoot,
      EndState, Resumable;
    var r := Prepare(d, x.c, identity);
    if Waiting(d, x) {
      PrepareRecovers(d, x, identity);
      forall i | 0 <= i < |r.states|
        ensures Resumable(r.states[i], x) && Reached(r.states[i], x)
      {
        OnTheWayIsResumable(r.states[i], x);
        OnTheWayIsReached(r.states[i], x);
      }
    } else {
      ResumableWithPlan(d, x);
      PrepareUnderway(d, x, identity);
      RunPlanCompletes(d, x);
      ResumedRun(d, x, r.states);
    }
    CompletionReachesTheEndState(Last(d, r.states), x);
  }

  lemma ResumableWithPlan(d: State, x: Case)
    requires Resumable(d, x) && !Waiting(d, x)
    ensures d.journal == Some(x.Planned()) && InProgress(d, x.job, 0)
  {
    hide InProgress, Waiting;
  }

  // ----- running a completed recovery again -----

  ghost predicate SameTree(d: State, states: seq<State>) {
    forall i :: 0 <= i < |states| ==> states[i].live == d.live
  }

  /** The states of a settled entry: nothing, or barriers only. */
  lemma SettledEntryTrace(d: State, job: Job, e: Entry)
    requires SoundEntry(job, e) && At(d.live, job, e, Settled)
    ensures
      var d1 := Synced(d, Parent(e.source));
      var d2 := Synced(d1, e.source);
      ApplyEntry(d, e, true) ==
      Trace(if e.metadata.None? then [] else if e.kind == Directory then [d1, d2, Synced(d2, Parent(e.source))]
        else [d1], Done)
  {
    hide Metadata, At, SoundEntry, Synced, Occupied;
    LooksLike(d.live, job, e);
    SyncedKeepsLive(d, Parent(e.source));
  }

  lemma SettledEntryMovesNothing(d: State, job: Job, k: nat)
    requires Sound(job) && InProgress(d, job, |job.plan|) && k < |job.plan|
    ensures
      var r := ApplyEntry(d, job.plan[k], true);
      r.outcome == Done && SameTree(d, r.states) && InProgress(Last(d, r.states), job, |job.plan|)
  {
    hide Sound, InProgress, At, SoundEntry, Synced, ApplyEntry;
    var e := job.plan[k];
    SoundAt(job, k);
    SettledAt(d, job, k);
    SettledEntryTrace(d, job, e);
    var d1 := Synced(d, Parent(e.source));
    var d2 := Synced(d1, e.source);
    SyncKeepsProgress(d, job, |job.plan|, Parent(e.source));
    SyncKeepsProgress(d1, job, |job.plan|, e.source);
    SyncKeepsProgress(d2, job, |job.plan|, Parent(e.source));
    SyncedKeepsLive(d, Parent(e.source));
    SyncedKeepsLive(d1, e.source);
    SyncedKeepsLive(d2, Parent(e.source));
  }

  lemma SameTreeConcat(d: State, a: seq<State>, b: seq<State>)
    requires SameTree(d, a) && SameTree(Last(d, a), b)
    ensures SameTree(d, a + b)
  {
  }

  lemma NothingMoved(d: State)
    ensures SameTree(d, [])
  {
  }

  /** Once a recovery is complete, running its plan again repeats the barriers and moves nothing. */
  lemma {:induction false} CompletedPlanMovesNothing(d: State, job: Job, k: nat)
    requires Sound(job) && InProgress(d, job, |job.plan|) && k <= |job.plan|
    ensures
      var r := Execute(d, job.plan[..k]);
      && r.outcome == Done && SameTree(d, r.states) && InProgress(Last(d, r.states), job, |job.plan|)
  {
    hide Sound, InProgress, ApplyEntry, Execute, Last, SameTree;
    if k == 0 {
      ExecuteNothing(d, job.plan);
      assert SameTree(d, []) by { NothingMoved(d); }
    } else {
      CompletedPlanMovesNothing(d, job, k - 1);
      var front := Execute(d, job.plan[..k - 1]);
      var d1 := Last(d, front.states);
      SettledEntryMovesNothing(d1, job, k - 1);
      ExecuteNext(d, job.plan, k - 1);
      SameTreeConcat(d, front.states, ApplyEntry(d1, job.plan[k - 1], true).states);
    }
  }

  /** So a `prepare` after a completed one is accepted and leaves every artifact where it is. */
  lemma PrepareIsIdempotent(d: State, x: Case, identity: Identity)
    requires x.Valid() && LaterBoot(x, identity) && Complete(d, x)
    ensures Prepare(d, x.c, identity).outcome == Done
    ensures forall s :: s in Prepare(d, x.c, identity).states ==> s.live == d.live
  {
    hide Case.Valid, Sound, InProgress, Bound, Execute, DryPass, Items, LaterBoot, Prepare;
    PrepareUnderway(d, x, identity);
    PlanIsSound(x);
    var plan, items := x.job.plan, Items(x.c.socket, x.j.scratches);
    DryPassPasses(d, x.job, items, x.j.identity.boot, |plan|);
    CompletedPlanMovesNothing(d, x.job, |plan|);
    assert plan[..|plan|] == plan && items[..|plan|] == items;
  }

  /** All completions agree: they differ at most in the identities of the fresh scratch directories. */
  lemma CompletionsAgree(d: State, d': State, x: Case, p: Path)
    requires x.Valid() && EndState(d, x) && EndState(d', x)
    ensures p in d.live <==> p in d'.live
    ensures p in d.live && p !in x.c.scratches ==> d.live[p] == d'.live[p]
    ensures p in d.live && p in x.c.scratches ==>
            d.live[p] == FreshDirectory(d.live[p].id) && d'.live[p] == FreshDirectory(d'.live[p].id)
  {
    hide Case.Valid, AllSynced, FromItem, Capacity;
    PlanComesFromItems(x);
    ValidParts(x);
    if Planned(x.job, p) {
      var i :| 0 <= i < |x.job.plan| && (p == x.job.plan[i].source || p == x.job.plan[i].target);
      assert FromItem(x, i);
      SourceOf(x, i);
    }
  }

  /** After a completed recovery `begin` is not refused. */
  lemma CompletionAllowsBegin(d: State, x: Case, identity: Identity)
    requires x.Valid() && Complete(d, x)
    ensures Begin(d, x.c, identity).outcome == Done
  {
    hide Case.Valid, InProgress, Begin;
    CompletionReachesTheEndState(d, x);
    BeginIsAcceptedExactlyWhenClean(d, x.c, identity);
  }
}
