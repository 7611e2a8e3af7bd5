/**
  The invariant of a recovery in progress. Relative to the tree `t0` in which the plan was made,
  every planned artifact is untouched, moved, or settled, in what the system sees and in what a
  crash keeps; at most one operation is unsynced, and then everything before it is settled.
*/
module RecoveryProgress {
  import opened Outcomes
  import opened RecoveryJournal
  import opened Disk
  import opened RecoverySpec

  /** The plan, the tree it was made in, and a bound below which all identities of that tree lie. */
  datatype Job = Job(t0: Tree, plan: seq<Entry>, base: nat)

  datatype Stage = Untouched | Moved | Settled

  ghost predicate At(t: Tree, job: Job, e: Entry, s: Stage) {
    match e.metadata
    case None => e.source !in t && e.target !in t
    case Some(id) =>
      e.source in job.t0 &&
      match s
      case Untouched => e.source in t && t[e.source] == job.t0[e.source] && e.target !in t
      case Moved => e.source !in t && e.target in t && t[e.target] == job.t0[e.source]
      case Settled =>
        && e.target in t && t[e.target] == job.t0[e.source]
        && if e.kind == Directory
           then e.source in t && t[e.source].id >= job.base && t[e.source] == FreshDirectory(t[e.source].id)
           else e.source !in t
  }

  ghost predicate Planned(job: Job, p: Path) {
    exists i :: 0 <= i < |job.plan| && (p == job.plan[i].source || p == job.plan[i].target)
  }

  /** What the plan guarantees about itself and about the tree it was made in. */
  ghost predicate Sound(job: Job) {
    && (forall i, j :: 0 <= i < |job.plan| && 0 <= j < |job.plan| ==> job.plan[i].source != job.plan[j].target)
    && (forall i, j :: 0 <= i < |job.plan| && 0 <= j < |job.plan| && i != j ==>
          job.plan[i].source != job.plan[j].source && job.plan[i].target != job.plan[j].target)
    && forall i :: 0 <= i < |job.plan| ==> SoundEntry(job, job.plan[i])
  }

  ghost predicate SoundEntry(job: Job, e: Entry) {
    && e.source != [] && e.target !in job.t0
    && (e.kind == Directory ==> e.metadata.Some?)
    && match e.metadata
       case None => e.source !in job.t0
       case Some(id) =>
         e.source in job.t0 && job.t0[e.source].id == id && id < job.base
         && job.t0[e.source].kind == e.kind && job.t0[e.source].private
  }

  /** Paths outside the plan are as they were. */
  ghost predicate ElsewhereUnchanged(t: Tree, job: Job) {
    forall p :: !Planned(job, p) ==> (p in t <==> p in job.t0) && (p in t ==> t[p] == job.t0[p])
  }

  ghost predicate AtSome(t: Tree, job: Job, e: Entry) {
    At(t, job, e, Untouched) || At(t, job, e, Moved) || At(t, job, e, Settled)
  }

  /** Every planned artifact is in one place with its original object, and nothing else moved. */
  ghost predicate Safe(t: Tree, job: Job) {
    ElsewhereUnchanged(t, job) && forall i :: 0 <= i < |job.plan| ==> AtSome(t, job, job.plan[i])
  }

  /** The first `k` entries are settled. */
  ghost predicate SettledUpTo(t: Tree, job: Job, k: nat) {
    forall i :: 0 <= i < k && i < |job.plan| ==> At(t, job, job.plan[i], Settled)
  }

  /** The single unsynced operation belongs to entry `i`, and everything before is settled. */
  ghost predicate UnsyncedAt(d: State, job: Job, i: nat) {
    && i < |job.plan| && job.plan[i].metadata.Some? && |d.pending| == 1
    && d.live == Perform(d.durable, d.pending[0])
    && SettledUpTo(d.live, job, i)
    && var e := job.plan[i];
       || (d.pending[0] == Rename(e.source, e.target) && At(d.durable, job, e, Untouched) && At(d.live, job, e, Moved))
       || (d.pending[0].MakeDirectory? && d.pending[0].path == e.source && e.kind == Directory
           && At(d.durable, job, e, Moved) && At(d.live, job, e, Settled))
  }

  ghost predicate AllSynced(d: State) {
    d.pending == [] && d.live == d.durable
  }

  /** A recovery whose first `k` entries are settled; anything unsynced belongs to a later one. */
  ghost predicate InProgress(d: State, job: Job, k: nat) {
    && d.nextId >= job.base
    && Safe(d.live, job) && Safe(d.durable, job)
    && SettledUpTo(d.live, job, k)
    && (AllSynced(d) || exists i :: k <= i && UnsyncedAt(d, job, i))
  }

  // ----- one operation -----

  /** Two trees that differ at most at the two paths of one entry. */
  ghost predicate SameBut(t: Tree, t': Tree, e: Entry) {
    forall p :: p != e.source && p != e.target ==> (p in t <==> p in t') && (p in t ==> t[p] == t'[p])
  }

  lemma OtherEntryKeepsStage(t: Tree, t': Tree, job: Job, i: nat, j: nat, s: Stage)
    requires Sound(job) && i < |job.plan| && j < |job.plan| && i != j
    requires SameBut(t, t', job.plan[i])
    ensures At(t, job, job.plan[j], s) <==> At(t', job, job.plan[j], s)
  {
    var e, f := job.plan[i], job.plan[j];
    assert f.source != e.source && f.source != e.target && f.target != e.source && f.target != e.target;
  }

  /** A step of entry `i` to another stage keeps the tree safe and earlier entries settled. */
  lemma StepKeepsSafe(t: Tree, t': Tree, job: Job, i: nat, s: Stage)
    requires Sound(job) && i < |job.plan| && Safe(t, job)
    requires SameBut(t, t', job.plan[i]) && At(t', job, job.plan[i], s)
    ensures Safe(t', job)
    ensures forall k: nat :: k <= i && SettledUpTo(t, job, k) ==> SettledUpTo(t', job, k)
    ensures s == Settled && SettledUpTo(t, job, i) ==> SettledUpTo(t', job, i + 1)
  {
    hide At, Sound;
    assert ElsewhereUnchanged(t', job) by {
      assert Planned(job, job.plan[i].source) && Planned(job, job.plan[i].target);
    }
    forall j | 0 <= j < |job.plan|
      ensures AtSome(t', job, job.plan[j])
    {
      if j != i {
        OtherEntryKeepsStage(t, t', job, i, j, Untouched);
        OtherEntryKeepsStage(t, t', job, i, j, Moved);
        OtherEntryKeepsStage(t, t', job, i, j, Settled);
      }
    }
    forall j | 0 <= j < i
      ensures At(t, job, job.plan[j], Settled) ==> At(t', job, job.plan[j], Settled)
    {
      OtherEntryKeepsStage(t, t', job, i, j, Settled);
    }
  }

  lemma AfterRename(t: Tree, job: Job, e: Entry)
    requires SoundEntry(job, e) && e.source != e.target
    requires e.metadata.Some? && At(t, job, e, Untouched)
    ensures SameBut(t, Perform(t, Rename(e.source, e.target)), e)
    ensures At(Perform(t, Rename(e.source, e.target)), job, e, Moved)
  {
  }

  // ----- syncing -----

  lemma SyncedOne(d: State, dir: Path)
    requires |d.pending| <= 1
    ensures d.pending == [] ==> Synced(d, dir).durable == d.durable && Synced(d, dir).pending == []
    ensures d.pending != [] && Home(d.pending[0]) == dir ==>
              Synced(d, dir).durable == Perform(d.durable, d.pending[0]) && Synced(d, dir).pending == []
    ensures d.pending != [] && Home(d.pending[0]) != dir ==>
              Synced(d, dir).durable == d.durable && Synced(d, dir).pending == d.pending
  {
    hide Within, PerformAll, Perform, Home;
    NothingPending(d.durable, dir);
    if d.pending != [] {
      OnePending(d.durable, d.pending[0], dir);
      assert d.pending == [d.pending[0]];
    }
  }

  lemma NothingPending(t: Tree, dir: Path)
    ensures Within([], dir, true) == [] && Within([], dir, false) == [] && PerformAll(t, []) == t
  {
  }

  lemma OnePending(t: Tree, op: Op, dir: Path)
    ensures Within([op], dir, true) == (if Home(op) == dir then [op] else [])
    ensures Within([op], dir, false) == (if Home(op) == dir then [] else [op])
    ensures PerformAll(t, [op]) == Perform(t, op)
  {
    hide Home, Perform;
    var ops := [op];
    assert ops[..|ops| - 1] == [];
    NothingPending(t, dir);
    assert Within(ops, dir, true) == if Home(op) == dir then [] + [op] else [];
    assert PerformAll(t, ops) == Perform(PerformAll(t, []), op);
  }

  /** Syncing any directory keeps a recovery in progress; syncing the right one leaves nothing unsynced. */
  lemma SyncKeepsProgress(d: State, job: Job, k: nat, dir: Path)
    requires InProgress(d, job, k)
    ensures InProgress(Synced(d, dir), job, k)
    ensures AllSynced(d) ==> AllSynced(Synced(d, dir))
    ensures |d.pending| == 1 && Home(d.pending[0]) == dir ==> AllSynced(Synced(d, dir))
  {
    hide Safe, SettledUpTo, At, Perform;
    var d' := Synced(d, dir);
    if AllSynced(d) {
      SyncedOne(d, dir);
    } else {
      var i :| k <= i && UnsyncedAt(d, job, i);
      SyncedOne(d, dir);
      if Home(d.pending[0]) != dir {
        assert UnsyncedAt(d', job, i);
      }
    }
  }

  // ----- one entry of the execute pass -----

  lemma SoundAt(job: Job, k: nat)
    requires Sound(job) && k < |job.plan|
    ensures SoundEntry(job, job.plan[k])
  {
  }

  lemma InProgressAt(d: State, job: Job, k: nat, i: nat)
    requires InProgress(d, job, k) && i < |job.plan|
    ensures AtSome(d.live, job, job.plan[i])
  {
  }

  /** What the program sees of an entry in each stage. */
  lemma LooksLike(t: Tree, job: Job, e: Entry)
    requires SoundEntry(job, e)
    ensures e.metadata.None? && AtSome(t, job, e) ==>
              Metadata(t, e.source, e.kind) == Ok(None) && Metadata(t, e.target, e.kind) == Ok(None)
    ensures e.metadata.Some? && At(t, job, e, Untouched) ==>
              Metadata(t, e.source, e.kind) == Ok(e.metadata) && Metadata(t, e.target, e.kind) == Ok(None)
    ensures e.metadata.Some? && At(t, job, e, Moved) ==>
              Metadata(t, e.source, e.kind) == Ok(None) && Metadata(t, e.target, e.kind) == Ok(e.metadata)
    ensures e.metadata.Some? && e.kind != Directory ==> (At(t, job, e, Settled) <==> At(t, job, e, Moved))
    ensures e.metadata.Some? && At(t, job, e, Settled) && e.kind == Directory ==>
              && Metadata(t, e.source, e.kind).Ok? && Metadata(t, e.source, e.kind).value.Some?
              && Metadata(t, e.source, e.kind).value != e.metadata && !Occupied(t, e.source)
              && Metadata(t, e.target, e.kind) == Ok(e.metadata)
  {
  }

  /** Nothing of entry `k` or of an earlier one is unsynced. */
  ghost predicate BarrierPassed(d: State, job: Job, k: nat) {
    AllSynced(d) || exists i :: k < i && UnsyncedAt(d, job, i)
  }

  lemma UntouchedMeansSynced(d: State, job: Job, k: nat)
    requires InProgress(d, job, k) && k < |job.plan|
    requires job.plan[k].metadata.Some? && At(d.live, job, job.plan[k], Untouched)
    ensures AllSynced(d)
  {
    hide Safe;
  }

  lemma RenameStep(d: State, job: Job, k: nat)
    requires Sound(job) && InProgress(d, job, k) && k < |job.plan| && AllSynced(d)
    requires job.plan[k].metadata.Some? && At(d.live, job, job.plan[k], Untouched)
    ensures
      var e := job.plan[k];
      var d' := Renamed(d, e.source, e.target);
      InProgress(d', job, k) && UnsyncedAt(d', job, k) && At(d'.live, job, e, Moved)
  {
    var e := job.plan[k];
    var d' := Renamed(d, e.source, e.target);
    assert SoundEntry(job, e) && e.source != e.target;
    AfterRename(d.live, job, e);
    hide Safe, SettledUpTo, At, SameBut, Sound, Perform;
    StepKeepsSafe(d.live, d'.live, job, k, Moved);
    assert d'.pending == [Rename(e.source, e.target)];
    assert SettledUpTo(d'.live, job, k);
    assert UnsyncedAt(d', job, k);
  }

  lemma MakeStep(d: State, job: Job, k: nat)
    requires Sound(job) && InProgress(d, job, k) && k < |job.plan| && AllSynced(d)
    requires job.plan[k].kind == Directory && At(d.live, job, job.plan[k], Moved)
    ensures
      var e := job.plan[k];
      var d' := MadeDirectory(d, e.source);
      InProgress(d', job, k) && UnsyncedAt(d', job, k) && At(d'.live, job, e, Settled)
  {
    var e := job.plan[k];
    var d' := MadeDirectory(d, e.source);
    assert SoundEntry(job, e) && e.source != e.target;
    hide Safe, SettledUpTo, At, SameBut, Sound, Perform;
    StepKeepsSafe(d.live, d'.live, job, k, Settled);
    assert d'.pending == [MakeDirectory(e.source, d.nextId)];
    assert SettledUpTo(d'.live, job, k);
    assert UnsyncedAt(d', job, k);
  }

  /** The parent barrier of an entry that has been moved. */
  lemma BarrierStep(d: State, job: Job, k: nat)
    requires InProgress(d, job, k) && k < |job.plan|
    ensures
      var d' := Synced(d, Parent(job.plan[k].source));
      InProgress(d', job, k) && BarrierPassed(d', job, k)
  {
    hide Safe, SettledUpTo, At, Perform;
    var dir := Parent(job.plan[k].source);
    SyncKeepsProgress(d, job, k, dir);
    var d' := Synced(d, dir);
    if !AllSynced(d) && !AllSynced(d') {
      var i :| k <= i && UnsyncedAt(d, job, i);
      SyncedOne(d, dir);
      assert i != k;
      assert UnsyncedAt(d', job, i);
    }
  }

  lemma EntryFinished(d: State, job: Job, k: nat)
    requires InProgress(d, job, k) && k < |job.plan| && BarrierPassed(d, job, k)
    requires At(d.live, job, job.plan[k], Settled)
    ensures InProgress(d, job, k + 1)
  {
    hide Safe, At;
  }

  ghost predicate Steps(states: seq<State>, job: Job, k: nat) {
    forall i :: 0 <= i < |states| ==> InProgress(states[i], job, k)
  }

  /** The states of settling a moved entry, spelled out. */
  lemma SettleTrace(d: State, e: Entry, id: nat, present: Option<nat>)
    requires present == Some(id) ==> false
    requires e.kind != Directory ==> present.None?
    requires present.Some? ==> !Occupied(d.live, e.source)
    ensures
      var d1 := Synced(d, Parent(e.source));
      var d2 := if present.None? then MadeDirectory(d1, e.source) else d1;
      var d3 := Synced(d2, e.source);
      var d4 := Synced(d3, Parent(e.source));
      Settle(d, e, id, present, true) ==
      if e.kind != Directory then Trace([d1], Done)
      else if present.None? then Trace([d1, d2, d3, d4], Done)
      else Trace([d1, d3, d4], Done)
  {
    hide MadeDirectory;
    SyncedKeepsLive(d, Parent(e.source));
    hide Synced;
  }

  /** From a moved entry on, the program settles it and every state on the way is in progress. */
  lemma SettleProgress(d: State, job: Job, k: nat, present: Option<nat>)
    requires Sound(job) && InProgress(d, job, k) && k < |job.plan| && job.plan[k].metadata.Some?
    requires At(d.live, job, job.plan[k], Moved) || At(d.live, job, job.plan[k], Settled)
    requires Metadata(d.live, job.plan[k].source, job.plan[k].kind) == Ok(present)
    ensures
      var r := Settle(d, job.plan[k], job.plan[k].metadata.value, present, true);
      r.outcome == Done && Steps(r.states, job, k) && InProgress(Last(d, r.states), job, k + 1)
  {
    hide Sound, InProgress, BarrierPassed, Synced, MadeDirectory, SettledUpTo, At, Settle, Metadata, SoundEntry,
      Occupied, Parent;
    var e := job.plan[k];
    SoundAt(job, k);
    LooksLike(d.live, job, e);
    SettleTrace(d, e, e.metadata.value, present);
    BarrierStep(d, job, k);
    SyncedKeepsLive(d, Parent(e.source));
    if e.kind != Directory {
      EntryFinished(Synced(d, Parent(e.source)), job, k);
    } else {
      SettleDirectory(Synced(d, Parent(e.source)), job, k, present);
    }
  }

  /** Recreating the scratch directory where it is missing, and syncing it. */
  lemma SettleDirectory(d1: State, job: Job, k: nat, present: Option<nat>)
    requires Sound(job) && InProgress(d1, job, k) && k < |job.plan| && BarrierPassed(d1, job, k)
    requires job.plan[k].kind == Directory && job.plan[k].metadata.Some?
    requires present.None? ==> At(d1.live, job, job.plan[k], Moved)
    requires present.Some? ==> At(d1.live, job, job.plan[k], Settled)
    ensures
      var e := job.plan[k];
      var d2 := if present.None? then MadeDirectory(d1, e.source) else d1;
      var d3 := Synced(d2, e.source);
      var d4 := Synced(d3, Parent(e.source));
      InProgress(d2, job, k) && InProgress(d3, job, k) && InProgress(d4, job, k) && InProgress(d4, job, k + 1)
  {
    var e := job.plan[k];
    if present.None? {
      MakeStep(d1, job, k);
    }
    var d2 := if present.None? then MadeDirectory(d1, e.source) else d1;
    hide Sound, InProgress, BarrierPassed, Synced, SettledUpTo, At, UnsyncedAt;
    SyncedKeepsLive(d2, e.source);
    SyncedKeepsLive(Synced(d2, e.source), Parent(e.source));
    SyncKeepsProgress(d2, job, k, e.source);
    BarrierStep(Synced(d2, e.source), job, k);
    EntryFinished(Synced(Synced(d2, e.source), Parent(e.source)), job, k);
  }

  lemma AbsentFinished(d: State, job: Job, k: nat)
    requires InProgress(d, job, k) && k < |job.plan| && job.plan[k].metadata.None?
    ensures InProgress(d, job, k + 1)
  {
    hide ElsewhereUnchanged;
    assert AtSome(d.live, job, job.plan[k]);
    if !AllSynced(d) {
      var i :| k <= i && UnsyncedAt(d, job, i);
      assert i != k;
    }
  }

  lemma LastOfNothing(d: State)
    ensures Last(d, []) == d
  {
  }

  lemma MovedEntryTrace(d: State, e: Entry)
    requires e.metadata.Some?
    requires Metadata(d.live, e.source, e.kind) == Ok(e.metadata) && Metadata(d.live, e.target, e.kind) == Ok(None)
    ensures
      var moved := Renamed(d, e.source, e.target);
      var rest := Settle(moved, e, e.metadata.value, None, true);
      && ApplyEntry(d, e, true) == Trace([moved] + rest.states, rest.outcome)
      && Last(d, [moved] + rest.states) == Last(moved, rest.states)
  {
    hide Settle, Renamed, Metadata;
  }

  /**
    The execute pass cannot fail on an entry of a recovery in progress: it settles the entry, and
    every disk state on the way is a recovery in progress.
  */
  lemma EntryProgress(d: State, job: Job, k: nat)
    requires Sound(job) && InProgress(d, job, k) && k < |job.plan|
    ensures
      var r := ApplyEntry(d, job.plan[k], true);
      r.outcome == Done && Steps(r.states, job, k) && InProgress(Last(d, r.states), job, k + 1)
  {
    hide Sound, InProgress, Settle, Metadata, Renamed, SoundEntry, At, Last, AllSynced, UnsyncedAt;
    var e := job.plan[k];
    SoundAt(job, k);
    InProgressAt(d, job, k, k);
    LooksLike(d.live, job, e);
    if e.metadata.None? {
      LastOfNothing(d);
      AbsentFinished(d, job, k);
    } else if At(d.live, job, e, Untouched) {
      UntouchedMeansSynced(d, job, k);
      RenameStep(d, job, k);
      var moved := Renamed(d, e.source, e.target);
      LooksLike(moved.live, job, e);
      SettleProgress(moved, job, k, None);
      MovedEntryTrace(d, e);
    } else {
      SettleProgress(d, job, k, Metadata(d.live, e.source, e.kind).value);
    }
  }

  // ----- the whole execute pass -----

  lemma LessProgress(d: State, job: Job, k: nat)
    requires InProgress(d, job, k)
    ensures InProgress(d, job, 0)
  {
    hide Safe, At, AllSynced, UnsyncedAt;
  }

  lemma StepsConcat(a: seq<State>, b: seq<State>, job: Job, k: nat)
    requires Steps(a, job, 0) && Steps(b, job, k)
    ensures Steps(a + b, job, 0)
  {
    hide InProgress;
    forall i | 0 <= i < |a + b|
      ensures InProgress((a + b)[i], job, 0)
    {
      if i >= |a| {
        LessProgress(b[i - |a|], job, k);
      }
    }
  }

  /** The execute pass never fails, and every state it passes through is a recovery in progress. */
  lemma {:induction false} ExecuteProgress(d: State, job: Job, k: nat)
    requires Sound(job) && InProgress(d, job, 0) && k <= |job.plan|
    ensures
      var r := Execute(d, job.plan[..k]);
      r.outcome == Done && Steps(r.states, job, 0) && InProgress(Last(d, r.states), job, k)
  {
    hide InProgress, Sound, ApplyEntry, Steps, Execute, Last;
    if k == 0 {
      ExecuteNothing(d, job.plan);
      assert Steps([], job, 0) by { NoSteps(job); }
    } else {
      ExecuteProgress(d, job, k - 1);
      var front := Execute(d, job.plan[..k - 1]);
      ExecuteNext(d, job.plan, k - 1);
      EntryProgress(Last(d, front.states), job, k - 1);
      StepsConcat(front.states, ApplyEntry(Last(d, front.states), job.plan[k - 1], true).states, job, k - 1);
    }
  }

  lemma NoSteps(job: Job)
    ensures Steps([], job, 0)
  {
  }

  // ----- the dry pass -----

  /** A recovery in progress passes every check of the dry pass, whatever it has already moved. */
  lemma DryEntryPasses(d: State, job: Job, k: nat)
    requires Sound(job) && InProgress(d, job, 0) && k < |job.plan|
    ensures ApplyEntry(d, job.plan[k], false) == Trace([], Done)
  {
    hide Sound, InProgress, AtSome, Metadata, Occupied, SoundEntry, At;
    SoundAt(job, k);
    InProgressAt(d, job, 0, k);
    LooksLike(d.live, job, job.plan[k]);
  }

  lemma {:induction false} DryPassPasses(d: State, job: Job, items: seq<Item>, boot: nat, k: nat)
    requires Sound(job) && InProgress(d, job, 0) && Bound(job.plan, items, boot) && k <= |job.plan|
    ensures DryPass(d, job.plan[..k], items[..k], boot) == Done
  {
    hide Sound, InProgress, ApplyEntry, BindingError;
    if k != 0 {
      DryPassPasses(d, job, items, boot, k - 1);
      DryEntryPasses(d, job, k - 1);
      assert job.plan[..k][..k - 1] == job.plan[..k - 1] && items[..k][..k - 1] == items[..k - 1];
    }
  }
}
