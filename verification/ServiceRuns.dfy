/**
  Whole lives of a host that runs the service in recovery mode. Steps are the atomic ones: any
  prefix of `prepare`, the replacement and the syncing of a journal, arbitrary work on the disk
  while serving, a killed process, a new configuration, and a machine crash into a fresh boot.
*/
module ServiceRuns {
  import opened Outcomes
  import opened RecoveryJournal
  import opened Disk
  import opened RecoverySpec
  import opened RecoveryProgress
  import opened RecoveryChecks
  import opened RecoveryCrash
  import opened RecoveryOutcome
  import opened DiskNumbers

  /** Where the service process stands; Idle when there is none, or when it has not passed `prepare`. */
  datatype Position = Idle | Prepared | BeginWritten | Serving | FinishWritten

  /** A journal replacement by `begin` or by `finish`, under the boot in which it happened. */
  datatype Event = Began(boot: nat) | Finished(boot: nat)

  /** `configs` are the reviewed configurations by digest, `used` the boots there have been. */
  datatype World = World(
    disk: State, config: Config, identity: Identity, stage: Position,
    log: seq<Event>, used: set<nat>, configs: map<nat, Config>)

  // ----- steps -----

  ghost predicate Reviewed(configs: map<nat, Config>, c: Config) {
    c.digest in configs && configs[c.digest] == c && Placed(c) && c.scratches != []
  }

  /** `prepare` runs for `n` operations; only a run that is not refused and is not stopped is passed. */
  ghost predicate PrepareStep(w: World, w': World, n: nat) {
    var r := Prepare(w.disk, w.config, w.identity);
    && w.stage == Idle && n <= |r.states|
    && w' ==
         w.(disk := After(w.disk, r.states, n), stage := if n == |r.states| && r.outcome == Done then Prepared
         else Idle)
  }

  ghost predicate BeginStep(w: World, w': World) {
    var r := Begin(w.disk, w.config, w.identity);
    && w.stage == Prepared && r.outcome == Done && r.states != []
    && w' == w.(disk := r.states[0], stage := BeginWritten, log := w.log + [Began(w.identity.boot)])
  }

  /** The barrier after a journal replacement. */
  ghost predicate BarrierStep(w: World, w': World) {
    && (w.stage == BeginWritten || w.stage == FinishWritten)
    && w' == w.(disk := Synced(w.disk, w.disk.home), stage := if w.stage == BeginWritten then Serving else Idle)
  }

  /** While serving, workers do what they like on the disk, except to the journal. */
  ghost predicate ServeStep(w: World, w': World) {
    && w.stage == Serving && w' == w.(disk := w'.disk) && Numbered(w'.disk)
    && w'.disk.journal == w.disk.journal && w'.disk.durableJournal == w.disk.durableJournal
  }

  ghost predicate FinishStep(w: World, w': World) {
    && w.stage == Serving && w.disk.journal.Some?
    && var r := Finish(w.disk, w.config, w.disk.journal.value);
       && r.outcome == Done && r.states != []
       && w' == w.(disk := r.states[0], stage := FinishWritten, log := w.log + [Finished(w.identity.boot)])
  }

  ghost predicate KillStep(w: World, w': World) {
    w' == w.(stage := Idle)
  }

  ghost predicate ConfigureStep(w: World, w': World) {
    w.stage == Idle && w' == w.(config := w'.config) && Reviewed(w.configs, w'.config)
  }

  /** The machine crashes at any moment and comes up under a boot identity never used before. */
  ghost predicate CrashStep(w: World, w': World) {
    && CrashesTo(w.disk, w'.disk) && w'.identity.boot !in w.used
    && w' == w.(disk := w'.disk, identity := w'.identity, used := w.used + {w'.identity.boot}, stage := Idle)
  }

  ghost predicate Step(w: World, w': World) {
    || (exists n :: PrepareStep(w, w', n))
    || BeginStep(w, w') || BarrierStep(w, w') || ServeStep(w, w') || FinishStep(w, w')
    || KillStep(w, w') || ConfigureStep(w, w') || CrashStep(w, w')
  }

  ghost predicate Initial(w: World) {
    && Numbered(w.disk) && w.disk.journal == w.disk.durableJournal == None
    && Reviewed(w.configs, w.config) && w.stage == Idle && w.log == [] && w.used == {w.identity.boot}
  }

  ghost predicate Run(run: seq<World>) {
    && run != [] && Initial(run[0])
    && forall i :: 0 <= i < |run| - 1 ==> Step(run[i], run[i + 1])
  }

  // ----- begins and finishes -----

  ghost predicate FinishBetween(log: seq<Event>, i: int, k: int, boot: nat) {
    exists m :: 0 <= i < m < k <= |log| && log[m] == Finished(boot)
  }

  ghost predicate Alternating(log: seq<Event>) {
    forall i, k :: 0 <= i < k < |log| && log[i].Began? && log[k] == log[i] ==> FinishBetween(log, i, k, log[i].boot)
  }

  /** A begin under `boot` that no finish has followed. */
  ghost predicate Unfinished(log: seq<Event>, boot: nat) {
    exists i :: 0 <= i < |log| && log[i] == Began(boot) && !FinishBetween(log, i, |log|, boot)
  }

  lemma BetweenStays(log: seq<Event>, e: Event, i: int, k: int, boot: nat)
    requires 0 <= i < k <= |log|
    ensures FinishBetween(log, i, k, boot) ==> FinishBetween(log + [e], i, k, boot)
    ensures FinishBetween(log, i, |log|, boot) ==> FinishBetween(log + [e], i, |log| + 1, boot)
    ensures e == Finished(boot) ==> FinishBetween(log + [e], i, |log| + 1, boot)
    ensures e != Finished(boot) && FinishBetween(log + [e], i, |log| + 1, boot) ==> FinishBetween(log, i, |log|, boot)
  {
    var longer := log + [e];
    if FinishBetween(log, i, k, boot) {
      var m :| i < m < k && log[m] == Finished(boot);
      assert longer[m] == Finished(boot);
    }
    if FinishBetween(log, i, |log|, boot) {
      var m :| i < m < |log| && log[m] == Finished(boot);
      assert longer[m] == Finished(boot);
    }
    assert longer[|log|] == e;
    if e != Finished(boot) && FinishBetween(longer, i, |log| + 1, boot) {
      var m :| i < m < |log| + 1 && longer[m] == Finished(boot);
      assert log[m] == Finished(boot);
    }
  }

  lemma LogBegan(log: seq<Event>, boot: nat)
    requires Alternating(log) && !Unfinished(log, boot)
    ensures Alternating(log + [Began(boot)])
  {
    var longer := log + [Began(boot)];
    forall i, k | 0 <= i < k < |longer| && longer[i].Began? && longer[k] == longer[i]
      ensures FinishBetween(longer, i, k, longer[i].boot)
    {
      assert longer[i] == log[i];
      BetweenStays(log, Began(boot), i, k, log[i].boot);
      if k == |log| {
        assert FinishBetween(log, i, |log|, boot);
        var m :| i < m < |log| && log[m] == Finished(boot);
        assert longer[m] == Finished(boot);
      }
    }
  }

  lemma LogFinished(log: seq<Event>, boot: nat)
    requires Alternating(log)
    ensures Alternating(log + [Finished(boot)]) && !Unfinished(log + [Finished(boot)], boot)
  {
    var longer := log + [Finished(boot)];
    forall i, k | 0 <= i < k < |longer| && longer[i].Began? && longer[k] == longer[i]
      ensures FinishBetween(longer, i, k, longer[i].boot)
    {
      BetweenStays(log, Finished(boot), i, k, log[i].boot);
    }
    forall i | 0 <= i < |longer| && longer[i] == Began(boot)
      ensures FinishBetween(longer, i, |longer|, boot)
    {
      BetweenStays(log, Finished(boot), i, |log|, boot);
    }
  }

  // ----- what is true of every journal there can be -----

  /** A planned journal describes a recovery that this disk is still in the course of. */
  ghost predicate BackedBy(d: State, j: Journal, configs: map<nat, Config>, x: Case) {
    x.Valid() && x.Planned() == j && Reviewed(configs, x.c) && InProgress(d, x.job, 0)
  }

  ghost predicate JournalFits(d: State, j: Journal, configs: map<nat, Config>, used: set<nat>, boot: nat) {
    && j.identity.boot in used
    && (j.phase == Clean ==> j.plan == None)
    && (j.plan.Some? ==> j.identity.boot != boot && exists x :: BackedBy(d, j, configs, x))
  }

  /** A journal that `prepare` would have to recover: active, and from another boot. */
  predicate Inherited(d: State, boot: nat) {
    d.journal.Some? && d.journal.value.phase == Active && d.journal.value.identity.boot != boot
  }

  ghost predicate JournalsFit(w: World) {
    var d := w.disk;
    && (d.journal.Some? ==> JournalFits(d, d.journal.value, w.configs, w.used, w.identity.boot))
    && (d.durableJournal.Some? ==> JournalFits(d, d.durableJournal.value, w.configs, w.used, w.identity.boot))
    && (Inherited(d, w.identity.boot) ==>
          if d.journal.value.plan == None then AllSynced(d) && d.durableJournal == d.journal
          else d.durableJournal == d.journal || d.durableJournal == Some(d.journal.value.(plan := None)))
  }

  /** What having passed `prepare` means for the journal and for the disk. */
  ghost predicate Passed(w: World) {
    match w.disk.journal
    case None => true
    case Some(j) =>
      && j.identity.platform == w.identity.platform && j.identity.host == w.identity.host
      && (j.phase == Active ==>
            && j.identity.boot != w.identity.boot && j.config == w.config.digest && SameScratches(j, w.config)
            && exists x ::
                 BackedBy(w.disk, j, w.configs, x) && x.c == w.config && InProgress(w.disk, x.job, |x.job.plan|))
  }

  /** The process has its own active journal in place. */
  ghost predicate OwnJournal(w: World) {
    w.disk.journal.Some? && w.disk.journal.value.phase == Active && w.disk.journal.value.plan == None
    && w.disk.journal.value.identity == w.identity && w.disk.journal.value.config == w.config.digest
  }

  ghost predicate LogFits(w: World) {
    && Alternating(w.log)
    && (forall e :: e in w.log ==> e.boot in w.used) && w.identity.boot in w.used
    && (Unfinished(w.log, w.identity.boot) ==>
          && w.disk.journal.Some? && w.disk.journal.value.phase == Active
          && w.disk.journal.value.identity.boot == w.identity.boot)
  }

  ghost predicate StageFits(w: World) {
    match w.stage
    case Idle => true
    case Prepared => Passed(w)
    case BeginWritten => OwnJournal(w)
    case Serving => OwnJournal(w) && w.disk.durableJournal == w.disk.journal
    case FinishWritten => w.disk.journal.Some? && w.disk.journal.value.phase == Clean
  }

  ghost predicate Inv(w: World) {
    Reviewed(w.configs, w.config) && Numbered(w.disk) && JournalsFit(w) && LogFits(w) && StageFits(w)
  }

  // ----- backing survives what does not touch the plan's paths -----

  /** The parts of a disk that recovery progress speaks about. */
  predicate SameFiles(d: State, d': State) {
    d'.live == d.live && d'.durable == d.durable && d'.pending == d.pending && d'.nextId == d.nextId
  }

  lemma SameFilesSameProgress(d: State, d': State, job: Job, k: nat)
    requires SameFiles(d, d') && InProgress(d, job, k)
    ensures InProgress(d', job, k)
  {
    hide Safe, SettledUpTo, At;
    if !AllSynced(d) {
      var i :| k <= i && UnsyncedAt(d, job, i);
      assert UnsyncedAt(d', job, i);
    }
  }

  /** Replacing the journal leaves every fitting journal fitting. */
  lemma FitsAfterReplacing(d: State, d': State, j: Journal, configs: map<nat, Config>, used: set<nat>, boot: nat)
    requires SameFiles(d, d') && JournalFits(d, j, configs, used, boot)
    ensures JournalFits(d', j, configs, used, boot)
  {
    hide InProgress, Reviewed, Case.Valid, SameFiles;
    if j.plan.Some? {
      var x :| BackedBy(d, j, configs, x);
      SameFilesSameProgress(d, d', x.job, 0);
      assert BackedBy(d', j, configs, x);
    }
  }

  lemma FitsAfterSync(d: State, dir: Path, j: Journal, configs: map<nat, Config>, used: set<nat>, boot: nat)
    requires JournalFits(d, j, configs, used, boot)
    ensures JournalFits(Synced(d, dir), j, configs, used, boot)
  {
    hide InProgress, Reviewed, Case.Valid, Synced;
    if j.plan.Some? {
      var x :| BackedBy(d, j, configs, x);
      SyncKeepsProgress(d, x.job, 0, dir);
      assert BackedBy(Synced(d, dir), j, configs, x);
    }
  }

  lemma FitsAfterCrash(d: State, after: State, j: Journal, configs: map<nat, Config>, used: set<nat>, boot: nat,
      newBoot: nat)
    requires JournalFits(d, j, configs, used, boot) && CrashesTo(d, after) && newBoot !in used
    ensures JournalFits(after, j, configs, used + {newBoot}, newBoot)
  {
    hide InProgress, Reviewed, Case.Valid, CrashesTo;
    if j.plan.Some? {
      var x :| BackedBy(d, j, configs, x);
      CrashKeepsProgress(d, after, x.job);
      assert BackedBy(after, j, configs, x);
    }
  }

  // ----- one run of prepare -----

  lemma OnlyAnInheritedJournalIsRecovered(w: World)
    requires Inv(w)
    ensures Prepare(w.disk, w.config, w.identity).states != [] ==>
              Inherited(w.disk, w.identity.boot) && PrepareRefusal(w.disk.journal.value, w.config, w.identity).None?
    ensures
      Prepare(w.disk, w.config, w.identity).outcome == Done && w.disk.journal.Some? ==>
        var j := w.disk.journal.value;
        && j.identity.platform == w.identity.platform && j.identity.host == w.identity.host
        && (j.phase == Active ==>
              && Inherited(w.disk, w.identity.boot) && PrepareRefusal(j, w.config, w.identity).None?
              && j.config == w.config.digest && SameScratches(j, w.config))
  {
    hide Inv, SameScratches, MakePlan, RunPlan, NoSocketArtifacts, ScratchesClean;
  }

  /** A prefix of a recovery that starts from a planned journal. */
  lemma PlannedPrefix(w: World, x: Case, n: nat)
    requires x.Valid() && LaterBoot(x, w.identity) && x.c == w.config
    requires w.disk.journal == Some(x.Planned()) && InProgress(w.disk, x.job, 0)
    requires n <= |Prepare(w.disk, w.config, w.identity).states|
    ensures
      var r := Prepare(w.disk, w.config, w.identity);
      var d := After(w.disk, r.states, n);
      && r.outcome == Done && InProgress(d, x.job, 0) && SameJournal(w.disk, d)
      && (n == |r.states| ==> InProgress(d, x.job, |x.job.plan|))
  {
    hide Case.Valid, InProgress, RunPlan, Prepare, LaterBoot;
    PrepareUnderway(w.disk, x, w.identity);
    RunPlanCompletes(w.disk, x);
  }

  /** A prefix of a recovery that starts by making the plan. */
  lemma WaitingPrefix(w: World, x: Case, n: nat)
    requires x.Valid() && LaterBoot(x, w.identity) && x.c == w.config && Waiting(w.disk, x)
    requires 1 <= n <= |Prepare(w.disk, w.config, w.identity).states|
    ensures
      var r := Prepare(w.disk, w.config, w.identity);
      var d := After(w.disk, r.states, n);
      && r.outcome == Done && InProgress(d, x.job, 0) && d.journal == Some(x.Planned())
      && (d.durableJournal == Some(x.j) || d.durableJournal == d.journal)
      && (n == |r.states| ==> InProgress(d, x.job, |x.job.plan|))
  {
    hide Case.Valid, InProgress, RunPlan, Prepare, LaterBoot, Waiting, Steps, Synced, PlanUnsynced;
    PrepareWaiting(w.disk, x, w.identity);
    var written := JournalWritten(w.disk, x.Planned());
    var rest := RunPlan(written[1], x.c, x.j, x.job.plan);
    RunPlanCompletes(written[1], x);
    StepsAreUnderway(written[1], x, rest.states);
    UnsyncedIsUntouched(written[0], x);
    assert n == 1 || After(w.disk, written + rest.states, n) == if n == 2 then written[1] else rest.states[n - 3];
  }

  lemma UnsyncedIsUntouched(d: State, x: Case)
    requires x.Valid() && PlanUnsynced(d, x)
    ensures InProgress(d, x.job, 0) && d.journal == Some(x.Planned()) && d.durableJournal == Some(x.j)
  {
    hide Case.Valid, InProgress;
    AllUntouched(x, d);
  }

  /** The recovery a planned journal stands for is the one the current configuration describes. */
  lemma BackedCase(w: World) returns (x: Case)
    requires Inv(w) && Inherited(w.disk, w.identity.boot)
    requires PrepareRefusal(w.disk.journal.value, w.config, w.identity).None? && w.disk.journal.value.plan.Some?
    ensures BackedBy(w.disk, w.disk.journal.value, w.configs, x) && x.c == w.config && LaterBoot(x, w.identity)
  {
    hide InProgress, MakePlan, Placed, Numbered, LogFits, StageFits, SameScratches;
    x :| BackedBy(w.disk, w.disk.journal.value, w.configs, x);
  }

  /** A journal without a plan, together with the tree it left behind, is a recovery waiting to start. */
  lemma WaitingCase(w: World) returns (x: Case)
    requires Inv(w) && Inherited(w.disk, w.identity.boot)
    requires PrepareRefusal(w.disk.journal.value, w.config, w.identity).None? && w.disk.journal.value.plan.None?
    requires MakePlan(w.disk.live, w.config.socket, w.disk.journal.value).Ok?
    ensures x.Valid() && x.c == w.config && LaterBoot(x, w.identity) && Waiting(w.disk, x)
            && x.j == w.disk.journal.value
  {
    hide MakePlan, Placed, LogFits, StageFits;
    var j := w.disk.journal.value;
    x := Case(w.config, j, Job(w.disk.live, MakePlan(w.disk.live, w.config.socket, j).value, w.disk.nextId));
  }

  /** The journals of a disk in the course of recovery `x` fit. */
  lemma RecoveredFits(w: World, d: State, x: Case)
    requires x.Valid() && Reviewed(w.configs, x.c) && InProgress(d, x.job, 0)
    requires x.j.identity.boot in w.used && x.j.identity.boot != w.identity.boot
    requires d.journal == Some(x.Planned()) && (d.durableJournal == Some(x.j) || d.durableJournal == d.journal)
    ensures JournalsFit(w.(disk := d))
  {
    hide InProgress, Reviewed;
    CaseJournal(x);
    hide Case.Valid;
    assert BackedBy(d, x.Planned(), w.configs, x);
  }

  lemma CaseJournal(x: Case)
    requires x.Valid()
    ensures x.j.phase == Active && x.j.plan == None
  {
    hide MakePlan, Placed, SameScratches;
  }

  lemma RecoveredPasses(w: World, d: State, x: Case)
    requires BackedBy(d, x.Planned(), w.configs, x) && x.c == w.config && LaterBoot(x, w.identity)
    requires d.journal == Some(x.Planned()) && InProgress(d, x.job, |x.job.plan|)
    ensures Passed(w.(disk := d))
  {
    hide InProgress, Reviewed, MakePlan, Placed;
    assert BackedBy(d, d.journal.value, w.configs, x) && x.c == w.config;
  }

  lemma PrepareNumberedAt(w: World, n: nat)
    requires Numbered(w.disk) && n <= |Prepare(w.disk, w.config, w.identity).states|
    ensures Numbered(After(w.disk, Prepare(w.disk, w.config, w.identity).states, n))
  {
    hide Numbered, Prepare;
    PrepareNumbered(w.disk, w.config, w.identity);
  }

  /** Recovering an inherited journal, for any number of operations. */
  lemma RecoveringKeepsFit(w: World, n: nat)
    requires Inv(w) && n <= |Prepare(w.disk, w.config, w.identity).states|
    requires Inherited(w.disk, w.identity.boot) && PrepareRefusal(w.disk.journal.value, w.config, w.identity).None?
    ensures
      var r := Prepare(w.disk, w.config, w.identity);
      var d := After(w.disk, r.states, n);
      && JournalsFit(w.(disk := d)) && d.journal.Some?
      && d.journal.value.identity == w.disk.journal.value.identity
      && (n == |r.states| && r.outcome == Done ==> Passed(w.(disk := d)))
  {
    hide InProgress, Prepare, Inv, Case.Valid, Reviewed, JournalsFit, LaterBoot, Waiting, PrepareRefusal, Passed;
    InvParts(w);
    if w.disk.journal.value.plan.Some? {
      var x := BackedCase(w);
      PlannedPrefix(w, x, n);
      var d := After(w.disk, Prepare(w.disk, w.config, w.identity).states, n);
      DurableOfInherited(w);
      CaseOfJournal(w, x);
      RecoveredFits(w, d, x);
      if n == |Prepare(w.disk, w.config, w.identity).states| {
        RecoveredPasses(w, d, x);
      }
    } else if MakePlan(w.disk.live, w.config.socket, w.disk.journal.value).Ok? {
      var x := WaitingCase(w);
      PrepareWaitingIsLong(w, x);
      if n != 0 {
        WaitingPrefix(w, x, n);
        var d := After(w.disk, Prepare(w.disk, w.config, w.identity).states, n);
        RecoveredFits(w, d, x);
        if n == |Prepare(w.disk, w.config, w.identity).states| {
          RecoveredPasses(w, d, x);
        }
      }
    } else {
      UnplannableIsRefused(w);
    }
  }

  lemma InvParts(w: World)
    requires Inv(w)
    ensures Reviewed(w.configs, w.config) && Numbered(w.disk) && JournalsFit(w) && LogFits(w) && StageFits(w)
    ensures w.disk.journal.Some? ==> w.disk.journal.value.identity.boot in w.used
  {
    hide Reviewed, Numbered, LogFits, StageFits;
  }

  lemma DurableOfInherited(w: World)
    requires JournalsFit(w) && Inherited(w.disk, w.identity.boot) && w.disk.journal.value.plan.Some?
    ensures w.disk.durableJournal == w.disk.journal
            || w.disk.durableJournal == Some(w.disk.journal.value.(plan := None))
  {
    hide JournalFits;
  }

  lemma CaseOfJournal(w: World, x: Case)
    requires w.disk.journal.Some? && BackedBy(w.disk, w.disk.journal.value, w.configs, x)
    ensures w.disk.journal == Some(x.Planned()) && x.j == w.disk.journal.value.(plan := None)
    ensures x.j.identity == w.disk.journal.value.identity
  {
    hide InProgress, Reviewed, MakePlan, Placed, SameScratches;
  }

  lemma PrepareWaitingIsLong(w: World, x: Case)
    requires x.Valid() && LaterBoot(x, w.identity) && x.c == w.config && Waiting(w.disk, x)
    ensures |Prepare(w.disk, w.config, w.identity).states| >= 2
  {
    hide Case.Valid, Prepare, Waiting, LaterBoot, RunPlan, Synced;
    PrepareWaiting(w.disk, x, w.identity);
  }

  lemma UnplannableIsRefused(w: World)
    requires w.disk.journal.Some? && w.disk.journal.value.phase == Active && w.disk.journal.value.plan.None?
    requires MakePlan(w.disk.live, w.config.socket, w.disk.journal.value).Err?
    ensures Prepare(w.disk, w.config, w.identity).outcome != Done && Prepare(w.disk, w.config, w.identity).states == []
  {
    hide MakePlan;
  }

  // ----- the invariant, step by step -----

  lemma PrepareKeepsInv(w: World, w': World, n: nat)
    requires Inv(w) && PrepareStep(w, w', n)
    ensures Inv(w')
  {
    hide Prepare, Passed, Reviewed, Numbered, JournalsFit, PrepareRefusal, Alternating, Unfinished;
    PrepareNumberedAt(w, n);
    OnlyAnInheritedJournalIsRecovered(w);
    if Inherited(w.disk, w.identity.boot) && PrepareRefusal(w.disk.journal.value, w.config, w.identity).None? {
      RecoveringKeepsFit(w, n);
      SameAsWithDisk(w, w');
    } else {
      assert w'.disk == w.disk;
      SameAsWithDisk(w, w');
      if w'.stage == Prepared {
        CleanPasses(w, w');
      }
    }
  }

  /** The judgements on journals look only at the disk, the identity, the configurations and the boots. */
  lemma SameAsWithDisk(w: World, w': World)
    requires w'.identity == w.identity && w'.configs == w.configs && w'.used == w.used && w'.config == w.config
    ensures JournalsFit(w') <==> JournalsFit(w.(disk := w'.disk))
    ensures Passed(w') <==> Passed(w.(disk := w'.disk))
  {
    hide JournalFits, InProgress, SameScratches, AllSynced, Reviewed, Case.Valid;
  }

  lemma CleanPasses(w: World, w': World)
    requires Inv(w) && w' == w.(stage := Prepared)
    requires Prepare(w.disk, w.config, w.identity).outcome == Done
    requires !(Inherited(w.disk, w.identity.boot) && PrepareRefusal(w.disk.journal.value, w.config, w.identity).None?)
    ensures Passed(w')
  {
    hide Prepare, Inv, PrepareRefusal, Inherited;
    OnlyAnInheritedJournalIsRecovered(w);
  }

  lemma BeginKeepsInv(w: World, w': World)
    requires Inv(w) && BeginStep(w, w')
    ensures Inv(w')
  {
    hide JournalsFit, Reviewed, Recorded, NoSocketArtifacts, Synced, Below, OpsBelow, Alternating, Unfinished, Passed;
    NewJournalFits(w, w'.disk);
    SameAsWithDisk(w, w');
    PassedHasNoOwn(w);
    LogBegan(w.log, w.identity.boot);
  }

  lemma PassedHasNoOwn(w: World)
    requires Passed(w) && LogFits(w)
    ensures !Unfinished(w.log, w.identity.boot)
  {
    hide Unfinished, Alternating, SameScratches, BackedBy;
  }

  /** Replacing the journal by one of this boot without a plan. */
  lemma NewJournalFits(w: World, d: State)
    requires JournalsFit(w) && SameFiles(w.disk, d) && d.durableJournal == w.disk.durableJournal && d.journal.Some?
    requires d.journal.value.identity.boot == w.identity.boot && w.identity.boot in w.used
             && d.journal.value.plan == None
    ensures JournalsFit(w.(disk := d))
  {
    hide SameFiles;
    if d.durableJournal.Some? {
      FitsAfterReplacing(w.disk, d, d.durableJournal.value, w.configs, w.used, w.identity.boot);
    }
    hide BackedBy;
  }

  lemma BarrierKeepsInv(w: World, w': World)
    requires Inv(w) && BarrierStep(w, w')
    ensures Inv(w')
  {
    hide JournalsFit, Reviewed, Synced, Numbered, Alternating, Unfinished, Passed;
    SyncedNumbered(w.disk, w.disk.home);
    SyncedJournalFits(w);
    SameAsWithDisk(w, w');
    HomeSynced(w.disk);
  }

  lemma HomeSynced(d: State)
    ensures Synced(d, d.home).journal == d.journal == Synced(d, d.home).durableJournal
  {
  }

  lemma SyncedJournalFits(w: World)
    requires JournalsFit(w) && w.disk.journal.Some? && !Inherited(w.disk, w.identity.boot)
    ensures JournalsFit(w.(disk := Synced(w.disk, w.disk.home)))
  {
    hide Synced, JournalFits;
    HomeSynced(w.disk);
    FitsAfterSync(w.disk, w.disk.home, w.disk.journal.value, w.configs, w.used, w.identity.boot);
  }

  lemma ServeKeepsInv(w: World, w': World)
    requires Inv(w) && ServeStep(w, w')
    ensures Inv(w')
  {
    hide Reviewed, Numbered, Alternating, Unfinished, Passed, BackedBy;
  }

  lemma FinishKeepsInv(w: World, w': World)
    requires Inv(w) && FinishStep(w, w')
    ensures Inv(w')
  {
    hide JournalsFit, Reviewed, ScratchesClean, NoSocketArtifacts, Synced, Below, OpsBelow, Alternating, Unfinished,
      Passed;
    NewJournalFits(w, w'.disk);
    SameAsWithDisk(w, w');
    LogFinished(w.log, w.identity.boot);
  }

  lemma KillKeepsInv(w: World, w': World)
    requires Inv(w) && (KillStep(w, w') || ConfigureStep(w, w'))
    ensures Inv(w')
  {
    hide Reviewed, Numbered, Alternating, Unfinished, Passed, BackedBy, AllSynced;
  }

  lemma CrashKeepsInv(w: World, w': World)
    requires Inv(w) && CrashStep(w, w')
    ensures Inv(w')
  {
    hide Reviewed, Numbered, Passed, Alternating, JournalsFit;
    CrashNumbered(w.disk, w'.disk);
    CrashedJournalsFit(w, w');
  }

  lemma CrashedJournalsFit(w: World, w': World)
    requires JournalsFit(w) && CrashStep(w, w')
    ensures JournalsFit(w')
  {
    hide JournalFits, Selection, PerformAll;
    var d, newBoot := w.disk, w'.identity.boot;
    if d.journal.Some? {
      FitsAfterCrash(d, w'.disk, d.journal.value, w.configs, w.used, w.identity.boot, newBoot);
    }
    if d.durableJournal.Some? {
      FitsAfterCrash(d, w'.disk, d.durableJournal.value, w.configs, w.used, w.identity.boot, newBoot);
    }
  }

  lemma StepKeepsInv(w: World, w': World)
    requires Inv(w) && Step(w, w')
    ensures Inv(w')
  {
    hide Inv, PrepareStep, BeginStep, BarrierStep, ServeStep, FinishStep, KillStep, ConfigureStep, CrashStep;
    if BeginStep(w, w') {
      BeginKeepsInv(w, w');
    } else if BarrierStep(w, w') {
      BarrierKeepsInv(w, w');
    } else if ServeStep(w, w') {
      ServeKeepsInv(w, w');
    } else if FinishStep(w, w') {
      FinishKeepsInv(w, w');
    } else if KillStep(w, w') || ConfigureStep(w, w') {
      KillKeepsInv(w, w');
    } else if CrashStep(w, w') {
      CrashKeepsInv(w, w');
    } else {
      var n :| PrepareStep(w, w', n);
      PrepareKeepsInv(w, w', n);
    }
  }

  lemma {:induction false} EveryRunKeepsInv(run: seq<World>, i: nat)
    requires Run(run) && i < |run|
    ensures Inv(run[i])
  {
    hide Step;
    if i == 0 {
      hide Numbered, Reviewed;
    } else {
      hide Inv, Initial;
      EveryRunKeepsInv(run, i - 1);
      assert Step(run[i - 1], run[i - 1 + 1]);
      StepKeepsInv(run[i - 1], run[i]);
    }
  }

  // ----- the properties -----

  /** Two begins under one boot identity always have a finish between them. */
  lemma BeginsAreSeparatedByAFinish(run: seq<World>, n: nat, i: nat, k: nat, boot: nat)
    requires Run(run) && n < |run| && i < k < |run[n].log|
    requires run[n].log[i] == run[n].log[k] == Began(boot)
    ensures exists m :: i < m < k && run[n].log[m] == Finished(boot)
  {
    hide Run, Reviewed, Numbered, JournalsFit, StageFits;
    EveryRunKeepsInv(run, n);
    assert FinishBetween(run[n].log, i, k, boot);
  }

  /**
    An unfinished journal is passed only in another boot of the same host under the same
    configuration, and then the disk is the end state of the recovery it describes.
  */
  lemma UnfinishedIsPassedOnlyRecovered(run: seq<World>, n: nat)
    requires Run(run) && n < |run| && run[n].stage == Prepared
    requires run[n].disk.journal.Some? && run[n].disk.journal.value.phase == Active
    ensures
      var w := run[n];
      var j := w.disk.journal.value;
      && j.identity.boot != w.identity.boot
      && j.identity.platform == w.identity.platform && j.identity.host == w.identity.host
      && j.config == w.config.digest && SameScratches(j, w.config)
      && exists x: Case :: x.Valid() && x.c == w.config && j == x.Planned() && EndState(w.disk, x)
  {
    hide Run, Reviewed, Numbered, JournalsFit, LogFits, EndState, InProgress, Case.Valid, SameScratches;
    EveryRunKeepsInv(run, n);
    var w := run[n];
    var j := w.disk.journal.value;
    var x :| BackedBy(w.disk, j, w.configs, x) && x.c == w.config && InProgress(w.disk, x.job, |x.job.plan|);
    CompletionReachesTheEndState(w.disk, x);
  }

  /** Every clean journal, whether on the disk or only in its cache, has a null plan. */
  lemma CleanJournalsHaveNoPlan(run: seq<World>, n: nat, j: Journal)
    requires Run(run) && n < |run| && j.phase == Clean
    requires run[n].disk.journal == Some(j) || run[n].disk.durableJournal == Some(j)
    ensures j.plan == None
  {
    hide Run, Reviewed, Numbered, StageFits, LogFits, BackedBy, AllSynced;
    EveryRunKeepsInv(run, n);
  }
}
