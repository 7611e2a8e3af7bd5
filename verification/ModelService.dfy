/**
  One run of the service from its configuration to its end: exclusive startup, recovery, the workers'
  configuration, the active journal, serving, and the clean journal. Each failure names its stage.
*/
module ModelService {
  import opened Outcomes
  import opened RecoveryJournal
  import opened Disk
  import opened RecoverySpec
  import opened RecoveryCrash
  import opened RecoveryRoundTrip
  import Recovery = RebootRecovery

  datatype FailedStage = ExclusiveStartup | RebootRecoveryFailed | WorkerConfigurationInvalid | RuntimeFailed

  const MAXIMUM_WORKERS := 256

  /** Bounded workers with separate scratch directories. */
  ghost predicate WorkersApart(scratches: seq<Path>) {
    && 1 <= |scratches| <= MAXIMUM_WORKERS
    && forall i, k :: 0 <= i < k < |scratches| ==> Apart(scratches[i], scratches[k])
  }

  /** The loop that builds the workers, checking each scratch directory against those before it. */
  method BuildSidecar(scratches: seq<Path>) returns (ok: bool)
    ensures ok <==> WorkersApart(scratches)
    ensures ok <==> 1 <= |scratches| <= 256
                    && forall i, k :: 0 <= i < |scratches| && 0 <= k < |scratches| && i != k ==>
                         !(scratches[i] <= scratches[k])
  {
    if !(1 <= |scratches| <= MAXIMUM_WORKERS) {
      return false;
    }
    for k := 0 to |scratches|
      invariant forall i, l :: 0 <= i < l < k ==> Apart(scratches[i], scratches[l])
    {
      for i := 0 to k
        invariant forall l :: 0 <= l < i ==> Apart(scratches[l], scratches[k])
      {
        if AtOrBelow(scratches[k], scratches[i]) || AtOrBelow(scratches[i], scratches[k]) {
          assert !Apart(scratches[i], scratches[k]);
          return false;
        }
      }
    }
    return true;
  }

  /** Every recorded scratch directory is there, private, the recorded one, and empty. */
  ghost predicate EachIsBackAndEmpty(t: Tree, scratches: seq<ScratchRecord>) {
    forall s :: s in scratches ==>
      && s.path in t && t[s.path].kind == Directory && t[s.path].private
      && t[s.path].id == s.metadata && t[s.path].contents == {}
  }

  /** What serving may do to the disk: anything but touch the journal. */
  ghost predicate LeavesJournal(work: State -> State) {
    forall d :: work(d).journal == d.journal && work(d).durableJournal == d.durableJournal && work(d).home == d.home
  }

  /** The journal of a run that has served and shut down gracefully. */
  ghost predicate CleanRecord(d: State, c: Config, identity: Identity) {
    && d.journal.Some? && d.durableJournal == d.journal
    && d.journal.value.phase == Clean && d.journal.value.plan == None
    && d.journal.value.identity == identity && d.journal.value.config == c.digest && SameScratches(d.journal.value, c)
    && c.socket !in d.live && Capacity(c.socket) !in d.live && EachIsBackAndEmpty(d.live, d.journal.value.scratches)
  }

  /** The journal of a run that has begun and not finished. */
  ghost predicate ActiveRecord(d: State, c: Config, identity: Identity) {
    && d.journal.Some? && d.durableJournal == d.journal
    && d.journal.value.phase == Active && d.journal.value.plan == None
    && d.journal.value.identity == identity && d.journal.value.config == c.digest && SameScratches(d.journal.value, c)
  }

  predicate Bounded(c: Config) {
    1 <= |c.scratches| <= MAXIMUM_WORKERS
  }

  /** Recovery mode gets past construction and `prepare`. */
  ghost predicate Passes(d: State, c: Config, identity: Identity) {
    ScratchesApart(c) && Prepare(d, c, identity).outcome == Done
  }

  ghost function Passed(d: State, c: Config, identity: Identity): State {
    Last(d, Prepare(d, c, identity).states)
  }

  /** Without recovery mode nothing of an earlier run may be there. */
  ghost predicate NothingLeft(d: State, c: Config) {
    c.socket !in d.live && Capacity(c.socket) !in d.live && d.journal.None?
  }

  /** What `begin` demands of the disk. */
  ghost predicate AcceptsBegin(d: State, c: Config) {
    && c.socket !in d.live && Capacity(c.socket) !in d.live
    && forall p :: p in c.scratches ==>
         p in d.live && d.live[p].kind == Directory && d.live[p].private && d.live[p].contents == {}
  }

  /** The run gets as far as serving. */
  ghost predicate GetsToServe(d: State, c: Config, identity: Identity, recover: bool) {
    if recover then Passes(d, c, identity) && Bounded(c) && AcceptsBegin(Passed(d, c, identity), c)
    else NothingLeft(d, c) && WorkersApart(c.scratches)
  }

  /** The disk when serving is over. */
  ghost function AfterServing(d: State, c: Config, identity: Identity, work: State -> State): State {
    var passed := Passed(d, c, identity);
    work(Last(passed, Begin(passed, c, identity).states))
  }

  /** What `finish` demands of the disk: the recorded scratch directories, empty again. */
  ghost predicate AcceptsFinish(d: State, c: Config) {
    && d.journal.Some? && c.socket !in d.live && Capacity(c.socket) !in d.live
    && EachIsBackAndEmpty(d.live, d.journal.value.scratches)
  }

  /**
    Each stage is reported exactly for its cause. A run in recovery mode leaves a clean journal
    exactly when nothing failed; a failure while or after serving leaves an active one. Outside
    recovery mode no journal may exist and none is made.
  */
  method RunConfiguration(fs: FileSystem, c: Config, identity: Identity, recover: bool, work: State -> State,
      served: bool)
    returns (failed: Option<FailedStage>)
    requires LeavesJournal(work)
    modifies fs
    ensures failed == Some(ExclusiveStartup) <==> !recover && !NothingLeft(old(fs.state), c)
    ensures failed == Some(WorkerConfigurationInvalid) <==>
            if recover then Passes(old(fs.state), c, identity) && !Bounded(c)
            else NothingLeft(old(fs.state), c) && !WorkersApart(c.scratches)
    ensures failed == Some(RuntimeFailed) <==> GetsToServe(old(fs.state), c, identity, recover) && !served
    ensures failed == Some(RebootRecoveryFailed) <==>
            && recover
            && (|| !Passes(old(fs.state), c, identity)
                || (Bounded(c) && !AcceptsBegin(Passed(old(fs.state), c, identity), c))
                || (GetsToServe(old(fs.state), c, identity, recover) && served
                    && !AcceptsFinish(AfterServing(old(fs.state), c, identity, work), c)))
    ensures recover && failed == None ==> CleanRecord(fs.state, c, identity)
    ensures recover && GetsToServe(old(fs.state), c, identity, recover) && failed.Some? ==>
              ActiveRecord(fs.state, c, identity)
    ensures !recover ==>
              fs.state.journal == old(fs.state).journal && fs.state.durableJournal == old(fs.state).durableJournal
  {
    hide Prepare, Begin, Finish, ScratchesApart, WorkersApart, CleanRecord, ActiveRecord, AcceptsBegin, AcceptsFinish,
      Capacity;
    if !recover {
      if !NoSocketArtifacts(fs.state.live, c.socket) || fs.state.journal.Some? {
        return Some(ExclusiveStartup);
      }
      var built := BuildSidecar(c.scratches);
      if !built {
        return Some(WorkerConfigurationInvalid);
      }
      fs.Become(work(fs.state));
      return if served then None else Some(RuntimeFailed);
    }
    var separate := Recovery.CheckScratches(c);
    if !separate {
      return Some(RebootRecoveryFailed);
    }
    var recovery := new Recovery.RebootRecovery(fs, c, identity);
    var prepared := recovery.Prepare();
    if prepared.Refused? {
      return Some(RebootRecoveryFailed);
    }
    ghost var before := fs.state;
    ScratchesApartBuild(c);
    BeginIsDecided(before, c, identity);
    var built := BuildSidecar(c.scratches);
    if !built {
      return Some(WorkerConfigurationInvalid);
    }
    var begun := recovery.Begin();
    if begun.Refused? {
      return Some(RebootRecoveryFailed);
    }
    BegunIsActive(before, c, identity);
    ghost var active := fs.state;
    fs.Become(work(fs.state));
    StaysActive(active, fs.state, c, identity);
    if !served {
      return Some(RuntimeFailed);
    }
    ghost var serving := fs.state;
    FinishIsDecided(serving, c, identity);
    assert recovery.Valid();
    var finished := recovery.Finish();
    if finished.Refused? {
      return Some(RebootRecoveryFailed);
    }
    FinishedIsClean(serving, c, identity);
    return None;
  }

  lemma BeginIsDecided(d: State, c: Config, identity: Identity)
    ensures Begin(d, c, identity).outcome == Done <==> AcceptsBegin(d, c)
  {
    hide Begin;
    BeginIsAcceptedExactlyWhenClean(d, c, identity);
  }

  lemma FinishIsDecided(d: State, c: Config, identity: Identity)
    requires ActiveRecord(d, c, identity)
    ensures d.journal.Some?
    ensures Finish(d, c, d.journal.value).outcome == Done <==> AcceptsFinish(d, c)
    ensures Finish(d, c, d.journal.value).outcome.Refused? ==> Last(d, Finish(d, c, d.journal.value).states) == d
  {
    hide Capacity, Synced;
  }

  /** In recovery mode the workers' overlap check repeats a stronger one that has already passed. */
  lemma ScratchesApartBuild(c: Config)
    requires ScratchesApart(c)
    ensures WorkersApart(c.scratches) <==> 1 <= |c.scratches| <= MAXIMUM_WORKERS
  {
    hide Apart;
  }

  lemma BegunIsActive(d: State, c: Config, identity: Identity)
    requires Begin(d, c, identity).outcome == Done
    ensures ActiveRecord(Last(d, Begin(d, c, identity).states), c, identity)
  {
    hide NoSocketArtifacts, Recorded, Synced;
    RecordsAreClean(d.live, c.scratches);
    HomeKeepsJournal(JournalReplaced(d, Begin(d, c, identity).states[0].journal.value));
  }

  lemma StaysActive(d: State, after: State, c: Config, identity: Identity)
    requires ActiveRecord(d, c, identity) && after.journal == d.journal && after.durableJournal == d.durableJournal
    ensures ActiveRecord(after, c, identity)
  {
  }

  lemma FinishedIsClean(d: State, c: Config, identity: Identity)
    requires ActiveRecord(d, c, identity) && Finish(d, c, d.journal.value).outcome == Done
    ensures CleanRecord(Last(d, Finish(d, c, d.journal.value).states), c, identity)
  {
    hide Capacity, Synced;
    var written := JournalReplaced(d, d.journal.value.(phase := Clean));
    HomeKeepsJournal(written);
    SyncedKeepsLive(written, d.home);
  }
}
