/**
  Recovery across crashes. An unfinished journal `j` and the tree `t0` it left behind determine the
  plan. From there, every disk state that any number of interrupted runs and machine crashes can
  reach is one from which `prepare` succeeds, and it always ends in the same place.
*/
module RecoveryCrash {
  import opened Outcomes
  import opened RecoveryJournal
  import opened Disk
  import opened RecoverySpec
  import opened RecoveryProgress
  import opened RecoveryChecks

  /** One recovery: the configuration, the unfinished journal without a plan, and the job it defines. */
  datatype Case = Case(c: Config, j: Journal, job: Job)
  {
    ghost predicate Valid() {
      && Placed(c)
      && j.phase == Active && j.plan == None && j.config == c.digest && SameScratches(j, c) && j.scratches != []
      && MakePlan(job.t0, c.socket, j) == Ok(job.plan)
      && forall p :: p in job.t0 ==> job.t0[p].id < job.base
    }

    function Planned(): Journal {
      j.(plan := Some(job.plan))
    }
  }

  /** A later boot of the same host. */
  predicate LaterBoot(x: Case, identity: Identity) {
    identity.platform == x.j.identity.platform && identity.host == x.j.identity.host
      && identity.boot != x.j.identity.boot
  }

  // ----- the plan that prepare makes -----

  lemma {:induction false} PlanItemsFacts(t: Tree, boot: nat, items: seq<Item>)
    ensures
      var plan := PlanItems(t, boot, items);
      if plan.Ok? then |plan.value| == |items| && forall i :: 0 <= i < |items| ==>
        PlanItem(t, boot, items[i]) == Ok(plan.value[i])
      else exists i :: 0 <= i < |items| && PlanItem(t, boot, items[i]).Err?
  {
    if items != [] {
      hide PlanItem;
      var front := items[..|items| - 1];
      PlanItemsFacts(t, boot, front);
      if PlanItems(t, boot, front).Err? {
        var i :| 0 <= i < |front| && PlanItem(t, boot, front[i]).Err?;
        assert items[i] == front[i];
      } else if PlanItem(t, boot, items[|items| - 1]).Err? {
      } else {
        var plan := PlanItems(t, boot, items).value;
        forall i | 0 <= i < |items|
          ensures PlanItem(t, boot, items[i]) == Ok(plan[i])
        {
          if i < |front| { assert items[i] == front[i]; }
        }
      }
    }
  }

  lemma PlannedEntry(t: Tree, boot: nat, item: Item, e: Entry)
    requires PlanItem(t, boot, item) == Ok(e)
    requires item.kind == Directory ==> item.retained.Some?
    ensures BindingError(e, item, boot).None? && e.source == item.source && e.kind == item.kind
            && e.target == TargetOf(boot, e.source)
    ensures Metadata(t, e.source, e.kind) == Ok(e.metadata) && e.target !in t
    ensures e.kind == Directory ==> e.metadata == item.retained
  {
  }

  /** Entry `i` of the plan, in terms of the item it was made from. */
  ghost predicate FromItem(x: Case, i: nat)
    requires i < |x.job.plan| && i < |x.j.scratches| + 2
  {
    var item, e := Items(x.c.socket, x.j.scratches)[i], x.job.plan[i];
    && BindingError(e, item, x.j.identity.boot).None?
    && PlainPath(e.source) && e.source == item.source && e.kind == item.kind
    && e.target == TargetOf(x.j.identity.boot, e.source)
    && Metadata(x.job.t0, e.source, e.kind) == Ok(e.metadata) && e.target !in x.job.t0
    && (e.kind == Directory ==> e.metadata.Some?)
  }

  lemma PlanComesFromItems(x: Case)
    requires x.Valid()
    ensures |x.job.plan| == |x.j.scratches| + 2 && |x.j.scratches| == |x.c.scratches|
    ensures forall i :: 0 <= i < |x.job.plan| ==> FromItem(x, i)
  {
    hide PlanItem, PlainPath, BindingError, Metadata;
    var items := Items(x.c.socket, x.j.scratches);
    PlanItemsFacts(x.job.t0, x.j.identity.boot, items);
    ItemsArePlain(x.c, x.j.scratches);
    forall i | 0 <= i < |items|
      ensures FromItem(x, i)
    {
      PlannedEntry(x.job.t0, x.j.identity.boot, items[i], x.job.plan[i]);
    }
  }

  lemma EntryIsSound(x: Case, i: nat)
    requires x.Valid() && i < |x.job.plan| && i < |x.j.scratches| + 2 && FromItem(x, i)
    ensures SoundEntry(x.job, x.job.plan[i])
    ensures BindingError(x.job.plan[i], Items(x.c.socket, x.j.scratches)[i], x.j.identity.boot).None?
  {
    hide Placed, SameScratches, MakePlan, BindingError, Items;
  }

  lemma EntriesDiffer(x: Case, i: nat, k: nat)
    requires x.Valid() && i < |x.job.plan| == |x.j.scratches| + 2 && k < |x.job.plan|
    requires FromItem(x, i) && FromItem(x, k)
    ensures x.job.plan[i].source != x.job.plan[k].target
    ensures i < k ==> x.job.plan[i].source != x.job.plan[k].source && x.job.plan[i].target != x.job.plan[k].target
  {
    hide Placed, MakePlan, BindingError, TargetOf;
    var e, f := x.job.plan[i], x.job.plan[k];
    TargetsAreNeverSources(x.j.identity.boot, f.source, e.source);
    TargetsAreInjective(x.j.identity.boot, e.source, f.source);
    if i < k {
      SourcesDiffer(x.c, x.j.scratches, i, k);
    }
  }

  /** The plan is bound to the journal, its paths are distinct, and its entries describe the tree. */
  lemma PlanIsSound(x: Case)
    requires x.Valid()
    ensures Sound(x.job) && Bound(x.job.plan, Items(x.c.socket, x.j.scratches), x.j.identity.boot)
    ensures |x.job.plan| == |x.c.scratches| + 2 == |x.j.scratches| + 2
  {
    hide Case.Valid, SoundEntry, FromItem, BindingError, Items;
    PlanComesFromItems(x);
    forall i | 0 <= i < |x.job.plan|
      ensures SoundEntry(x.job, x.job.plan[i])
              && BindingError(x.job.plan[i], Items(x.c.socket, x.j.scratches)[i], x.j.identity.boot).None?
    {
      assert FromItem(x, i);
      EntryIsSound(x, i);
    }
    forall i, k | 0 <= i < |x.job.plan| && 0 <= k < |x.job.plan|
      ensures x.job.plan[i].source != x.job.plan[k].target
      ensures i < k ==> x.job.plan[i].source != x.job.plan[k].source && x.job.plan[i].target != x.job.plan[k].target
    {
      assert FromItem(x, i) && FromItem(x, k);
      EntriesDiffer(x, i, k);
    }
  }

  // ----- where a recovery can stand -----

  /** Before the plan exists: the unfinished journal and the tree it left behind, all durable. */
  ghost predicate Waiting(d: State, x: Case) {
    && d.journal == d.durableJournal == Some(x.j)
    && d.live == d.durable == x.job.t0 && d.pending == [] && d.nextId >= x.job.base
  }

  /** The plan has replaced the journal, but the directory of the journal is not synced yet. */
  ghost predicate PlanUnsynced(d: State, x: Case) {
    && d.journal == Some(x.Planned()) && d.durableJournal == Some(x.j)
    && d.live == d.durable == x.job.t0 && d.pending == [] && d.nextId >= x.job.base
  }

  /** The plan is durable and some of it may have been carried out. */
  ghost predicate Underway(d: State, x: Case) {
    d.journal == d.durableJournal == Some(x.Planned()) && InProgress(d, x.job, 0)
  }

  /** Everything is quarantined, scratch directories are fresh and empty, and all of it is durable. */
  ghost predicate Complete(d: State, x: Case) {
    Underway(d, x) && InProgress(d, x.job, |x.job.plan|)
  }

  ghost predicate OnTheWay(d: State, x: Case) {
    Waiting(d, x) || PlanUnsynced(d, x) || Underway(d, x)
  }

  /** The states a crash leaves behind, and those an interrupted run with a durable plan leaves. */
  ghost predicate Recoverable(d: State, x: Case) {
    Waiting(d, x) || Underway(d, x)
  }

  /** The plan is in place, whether or not it is durable yet, and some of it may have been carried out. */
  ghost predicate PlanWritten(d: State, x: Case) {
    && d.journal == Some(x.Planned()) && (d.durableJournal == d.journal || d.durableJournal == Some(x.j))
    && InProgress(d, x.job, 0)
  }

  /** The journal is without its plan: before a plan was written, or because a crash has lost it. */
  ghost predicate WithoutPlan(d: State, x: Case) {
    d.journal == d.durableJournal == Some(x.j) && AllSynced(d) && InProgress(d, x.job, 0)
  }

  /** What any mixture of stopped runs and machine crashes can lead to. */
  ghost predicate Reached(d: State, x: Case) {
    PlanWritten(d, x) || WithoutPlan(d, x)
  }

  lemma OnTheWayIsReached(d: State, x: Case)
    requires x.Valid() && OnTheWay(d, x)
    ensures Reached(d, x)
  {
    if !Underway(d, x) {
      AllUntouched(x, d);
    }
    hide Case.Valid, InProgress;
  }

  lemma AllUntouched(x: Case, d: State)
    requires x.Valid() && d.live == d.durable == x.job.t0 && d.pending == [] && d.nextId >= x.job.base
    ensures InProgress(d, x.job, 0)
  {
    hide Case.Valid, Sound, At, SoundEntry;
    PlanIsSound(x);
    forall i | 0 <= i < |x.job.plan|
      ensures AtSome(d.live, x.job, x.job.plan[i])
    {
      SoundAt(x.job, i);
      UntouchedInitially(x.job, x.job.plan[i]);
    }
  }

  lemma UntouchedInitially(job: Job, e: Entry)
    requires SoundEntry(job, e)
    ensures At(job.t0, job, e, Untouched)
  {
  }

  // ----- journals on the way -----

  /** Directory operations leave the journal alone; syncing may make it durable. */
  ghost predicate SameJournal(d: State, s: State) {
    s.journal == d.journal && s.home == d.home
      && (s.durableJournal == d.durableJournal || s.durableJournal == d.journal)
  }

  ghost predicate AllSameJournal(d: State, states: seq<State>) {
    forall i :: 0 <= i < |states| ==> SameJournal(d, states[i])
  }

  lemma AllAndLast(d: State, states: seq<State>)
    requires AllSameJournal(d, states)
    ensures SameJournal(d, Last(d, states))
  {
  }

  lemma SettleKeepsJournal(d: State, e: Entry, id: nat, present: Option<nat>)
    ensures AllSameJournal(d, Settle(d, e, id, present, true).states)
  {
    hide PerformAll, Within, Perform;
  }

  lemma EntryKeepsJournal(d: State, e: Entry)
    ensures AllSameJournal(d, ApplyEntry(d, e, true).states)
  {
    hide Settle, Perform;
    forall id, present
      ensures AllSameJournal(d, Settle(d, e, id, present, true).states)
    {
      SettleKeepsJournal(d, e, id, present);
    }
    var moved := Renamed(d, e.source, e.target);
    forall id
      ensures AllSameJournal(moved, Settle(moved, e, id, None, true).states)
    {
      SettleKeepsJournal(moved, e, id, None);
    }
  }

  lemma {:induction false} ExecuteKeepsJournal(d: State, plan: seq<Entry>, k: nat)
    requires k <= |plan|
    ensures AllSameJournal(d, Execute(d, plan[..k]).states)
  {
    hide ApplyEntry, Last;
    if k == 0 {
      ExecuteNothing(d, plan);
    } else {
      ExecuteKeepsJournal(d, plan, k - 1);
      hide Execute;
      var front := Execute(d, plan[..k - 1]);
      assert plan[..k][..k - 1] == plan[..k - 1];
      if front.outcome == Done {
        ExecuteNext(d, plan, k - 1);
        AllAndLast(d, front.states);
        EntryKeepsJournal(Last(d, front.states), plan[k - 1]);
      } else {
        ExecuteStops(d, plan, k);
      }
    }
  }

  lemma ExecuteStops(d: State, plan: seq<Entry>, k: nat)
    requires 0 < k <= |plan| && Execute(d, plan[..k - 1]).outcome != Done
    ensures Execute(d, plan[..k]) == Execute(d, plan[..k - 1])
  {
    assert plan[..k][..k - 1] == plan[..k - 1];
  }

  // ----- one run of prepare -----

  /** With a plan in progress the dry pass passes and the execute pass completes. */
  lemma RunPlanCompletes(d: State, x: Case)
    requires x.Valid() && InProgress(d, x.job, 0)
    ensures
      var r := RunPlan(d, x.c, x.j, x.job.plan);
      && r.outcome == Done && Steps(r.states, x.job, 0)
      && InProgress(Last(d, r.states), x.job, |x.job.plan|)
      && AllSameJournal(d, r.states)
  {
    hide Case.Valid, Sound, InProgress, Bound, Steps, Execute, DryPass, Last, AllSameJournal, Items;
    PlanIsSound(x);
    var plan, items := x.job.plan, Items(x.c.socket, x.j.scratches);
    DryPassPasses(d, x.job, items, x.j.identity.boot, |plan|);
    ExecuteProgress(d, x.job, |plan|);
    ExecuteKeepsJournal(d, plan, |plan|);
    assert plan[..|plan|] == plan && items[..|plan|] == items;
  }

  lemma StepsAreUnderway(d: State, x: Case, states: seq<State>)
    requires Underway(d, x) && Steps(states, x.job, 0) && AllSameJournal(d, states)
    requires InProgress(Last(d, states), x.job, |x.job.plan|)
    ensures forall i :: 0 <= i < |states| ==> Underway(states[i], x)
    ensures Complete(Last(d, states), x)
  {
    hide InProgress;
    AllAndLast(d, states);
    forall i | 0 <= i < |states|
      ensures Underway(states[i], x)
    {
      assert SameJournal(d, states[i]);
    }
    if states == [] {
    } else {
      assert Underway(Last(d, states), x);
    }
  }

  lemma PrepareUnderway(d: State, x: Case, identity: Identity)
    requires x.Valid() && LaterBoot(x, identity) && (d.journal == Some(x.Planned()))
    ensures Prepare(d, x.c, identity) == RunPlan(d, x.c, x.j, x.job.plan)
  {
    SamePlanRun(d, x);
    hide RunPlan, MakePlan, Placed;
  }

  /** Only the scratch records and the boot of the journal matter to a plan's run. */
  lemma SamePlanRun(d: State, x: Case)
    ensures RunPlan(d, x.c, x.Planned(), x.job.plan) == RunPlan(d, x.c, x.j, x.job.plan)
  {
    hide DryPass, Execute;
  }

  lemma PrepareWaiting(d: State, x: Case, identity: Identity)
    requires x.Valid() && LaterBoot(x, identity) && Waiting(d, x)
    ensures
      var written := JournalWritten(d, x.Planned());
      var rest := RunPlan(written[1], x.c, x.j, x.job.plan);
      && Prepare(d, x.c, identity) == Trace(written + rest.states, rest.outcome)
      && PlanUnsynced(written[0], x) && Underway(written[1], x)
      && Last(d, written + rest.states) == Last(written[1], rest.states)
  {
    var written := JournalWritten(d, x.Planned());
    NothingPending(d.durable, d.home);
    AllUntouched(x, written[1]);
    hide RunPlan, MakePlan, Placed, InProgress;
    assert Last(d, written) == written[1];
  }

  /**
    One run of `prepare` from anywhere on the way: it is not refused, it completes the recovery,
    and every disk state it passes through is on the way.
  */
  lemma PrepareRecovers(d: State, x: Case, identity: Identity)
    requires x.Valid() && LaterBoot(x, identity) && Recoverable(d, x)
    ensures
      var r := Prepare(d, x.c, identity);
      && r.outcome == Done
      && (forall i :: 0 <= i < |r.states| ==> OnTheWay(r.states[i], x))
      && Complete(Last(d, r.states), x)
  {
    hide Case.Valid, Waiting, PlanUnsynced, Prepare, RunPlan, Steps, Last, AllSameJournal, InProgress, LaterBoot,
      Complete;
    if Waiting(d, x) {
      PrepareWaiting(d, x, identity);
      var written := JournalWritten(d, x.Planned());
      RunPlanCompletes(written[1], x);
      StepsAreUnderway(written[1], x, RunPlan(written[1], x.c, x.j, x.job.plan).states);
    } else {
      PrepareUnderway(d, x, identity);
      RunPlanCompletes(d, x);
      StepsAreUnderway(d, x, RunPlan(d, x.c, x.j, x.job.plan).states);
    }
  }

  // ----- crashes -----

  lemma SelectionOfOne(kept: seq<Op>, op: Op)
    requires Selection(kept, [op])
    ensures kept == [] || kept == [op]
  {
    var ops := [op];
    assert ops[..|ops| - 1] == [];
    if Selection(kept, []) {
      SelectionOfNone(kept);
    } else {
      SelectionOfNone(kept[..|kept| - 1]);
      assert kept == kept[..|kept| - 1] + [kept[|kept| - 1]];
    }
  }

  /** With at most one operation unsynced, a crash shows either the durable or the live tree. */
  lemma CrashShowsOneOfTwo(d: State, after: State, job: Job, k: nat)
    requires InProgress(d, job, k) && CrashesTo(d, after)
    ensures after.live == d.durable || after.live == d.live
  {
    hide Safe, SettledUpTo, Selection, PerformAll, Perform, At;
    var kept :| Selection(kept, d.pending) && after.live == PerformAll(d.durable, kept);
    NothingPending(d.durable, []);
    if AllSynced(d) {
      SelectionOfNone(kept);
    } else {
      var i :| k <= i && UnsyncedAt(d, job, i);
      assert d.pending == [d.pending[0]];
      SelectionOfOne(kept, d.pending[0]);
      OnePending(d.durable, d.pending[0], []);
    }
  }

  lemma SelectionOfNone(kept: seq<Op>)
    requires Selection(kept, [])
    ensures kept == []
  {
  }

  /** Either is still that recovery. */
  lemma CrashKeepsProgress(d: State, after: State, job: Job)
    requires InProgress(d, job, 0) && CrashesTo(d, after)
    ensures InProgress(after, job, 0) && AllSynced(after)
  {
    CrashShowsOneOfTwo(d, after, job, 0);
    hide Safe, At, Selection, PerformAll;
  }

  /** Wherever the machine stops, what it finds after the reboot is recoverable. */
  lemma CrashLeavesRecoverable(d: State, after: State, x: Case)
    requires x.Valid() && OnTheWay(d, x) && CrashesTo(d, after)
    ensures Recoverable(after, x)
  {
    if Underway(d, x) {
      CrashShowsOneOfTwo(d, after, x.job, 0);
      hide Safe, At, Case.Valid;
      assert AllSynced(after);
    } else {
      hide Case.Valid, Perform;
      AllUntouched(x, d);
      CrashShowsOneOfTwo(d, after, x.job, 0);
      if after.journal == Some(x.Planned()) {
        AllUntouched(x, after);
      }
    }
  }

  /** The disk after `n` operations of a run. */
  function After(d: State, states: seq<State>, n: nat): State
    requires n <= |states|
  {
    if n == 0 then d else states[n - 1]
  }

  /** A run of `prepare` in some later boot that a machine crash cuts off after some operation. */
  ghost predicate CutOff(d: State, after: State, x: Case) {
    exists identity, n :: CutOffAt(d, after, x, identity, n)
  }

  ghost predicate CutOffAt(d: State, after: State, x: Case, identity: Identity, n: nat) {
    && LaterBoot(x, identity) && n <= |Prepare(d, x.c, identity).states|
    && CrashesTo(After(d, Prepare(d, x.c, identity).states, n), after)
  }

  /**
    However often recovery is cut off, at whatever operations, in whatever later boots: the disk
    stays recoverable, and the next undisturbed run completes the recovery.
  */
  lemma {:induction false} EveryCrashHistoryIsRecoverable(x: Case, history: seq<State>, i: nat)
    requires x.Valid() && i < |history| && Recoverable(history[0], x)
    requires forall k :: 0 <= k < |history| - 1 ==> CutOff(history[k], history[k + 1], x)
    ensures Recoverable(history[i], x)
    ensures forall identity :: LaterBoot(x, identity) ==>
              var r := Prepare(history[i], x.c, identity);
              r.outcome == Done && Complete(Last(history[i], r.states), x)
  {
    hide Case.Valid, Prepare, Waiting, PlanUnsynced, Underway, Complete, CrashesTo, LaterBoot;
    if i != 0 {
      EveryCrashHistoryIsRecoverable(x, history, i - 1);
      var d := history[i - 1];
      assert CutOff(d, history[i - 1 + 1], x);
      var identity, n :| CutOffAt(d, history[i], x, identity, n);
      PrepareRecovers(d, x, identity);
      CrashLeavesRecoverable(After(d, Prepare(d, x.c, identity).states, n), history[i], x);
    }
    forall identity | LaterBoot(x, identity)
      ensures
        var r := Prepare(history[i], x.c, identity);
        r.outcome == Done && Complete(Last(history[i], r.states), x)
    {
      PrepareRecovers(history[i], x, identity);
    }
  }
}
