/**
  What `prepare`, `begin` and `finish` demand of the disk, written out over the tree and the journal
  alone: which paths must be absent, which must be there, of what kind, with what identity, and empty.
*/
module RecoveryAcceptance {
  import opened Outcomes
  import opened RecoveryJournal
  import opened Disk
  import opened RecoverySpec
  import opened RecoveryChecks
  import opened RecoveryCrash
  import opened RecoveryRoundTrip
  import opened RecoveryProgress
  import opened RecoveryOutcome

  // ----- paths -----

  /** The capacity file stands beside the socket, under the socket's name with a suffix. */
  function CapacityFile(socket: Path): Path
    requires PlainPath(socket)
  {
    var n := |socket| - 1;
    socket[..n] + [Plain(socket[n].text + ".capacity.json")]
  }

  lemma CapacityIsTheCapacityFile(socket: Path)
    requires PlainPath(socket)
    ensures Capacity(socket) == CapacityFile(socket)
  {
  }

  /** An artifact is quarantined in its own directory, so one barrier there covers the move. */
  lemma QuarantineIsBeside(boot: nat, source: Path)
    requires source != []
    ensures TargetOf(boot, source) == source[..|source| - 1] + [Quarantine(boot, source)]
  {
  }

  // ----- begin -----

  /**
    `begin` is accepted exactly on a disk without socket and capacity file whose scratch directories
    are private and empty.
  */
  lemma BeginDemands(d: State, c: Config, identity: Identity)
    requires PlainPath(c.socket)
    ensures Begin(d, c, identity).outcome == Done <==>
            && c.socket !in d.live && CapacityFile(c.socket) !in d.live
            && forall p :: p in c.scratches ==>
                 p in d.live && d.live[p].kind == Directory && d.live[p].private && d.live[p].contents == {}
  {
    hide Begin, Capacity;
    CapacityIsTheCapacityFile(c.socket);
    BeginIsAcceptedExactlyWhenClean(d, c, identity);
  }

  /** It then leaves, durably, an active journal of this boot that names every scratch directory with its identity. */
  lemma BeginRecords(d: State, c: Config, identity: Identity)
    requires Begin(d, c, identity).outcome == Done
    ensures
      var after := Last(d, Begin(d, c, identity).states);
      && after.live == d.live && after.journal.Some? && after.durableJournal == after.journal
      && var j := after.journal.value;
         && j.config == c.digest && j.identity == identity && j.phase == Active && j.plan == None
         && |j.scratches| == |c.scratches|
         && forall i :: 0 <= i < |j.scratches| ==>
              && c.scratches[i] in d.live
              && j.scratches[i] == ScratchRecord(c.scratches[i], d.live[c.scratches[i]].id)
  {
    hide Recorded, NoSocketArtifacts, Synced, Occupied;
    RecordsAreClean(d.live, c.scratches);
    var j := Begin(d, c, identity).states[0].journal.value;
    HomeKeepsJournal(JournalReplaced(d, j));
    SyncedKeepsLive(JournalReplaced(d, j), d.home);
    forall i | 0 <= i < |j.scratches|
      ensures c.scratches[i] in d.live && j.scratches[i] == ScratchRecord(c.scratches[i], d.live[c.scratches[i]].id)
    {
      assert j.scratches[i] in j.scratches;
    }
  }

  // ----- finish -----

  /** `finish` is accepted exactly when every recorded scratch directory is there again, the recorded one and empty. */
  lemma FinishDemands(d: State, c: Config, j: Journal)
    requires PlainPath(c.socket)
    ensures Finish(d, c, j).outcome == Done <==>
            && c.socket !in d.live && CapacityFile(c.socket) !in d.live
            && forall s :: s in j.scratches ==>
                 && s.path in d.live && d.live[s.path].kind == Directory && d.live[s.path].private
                 && d.live[s.path].id == s.metadata && d.live[s.path].contents == {}
  {
    hide Capacity;
    CapacityIsTheCapacityFile(c.socket);
  }

  /** It then leaves the same journal, clean and durable, and changes nothing else. */
  lemma FinishRecords(d: State, c: Config, j: Journal)
    requires Finish(d, c, j).outcome == Done
    ensures
      var after := Last(d, Finish(d, c, j).states);
      after.live == d.live && after.journal == after.durableJournal == Some(j.(phase := Clean))
  {
    hide ScratchesClean, NoSocketArtifacts, Synced;
    HomeKeepsJournal(JournalReplaced(d, j.(phase := Clean)));
    SyncedKeepsLive(JournalReplaced(d, j.(phase := Clean)), d.home);
  }

  // ----- prepare, with nothing to recover -----

  lemma PrepareDemandsWithoutJournal(d: State, c: Config, identity: Identity)
    requires PlainPath(c.socket) && d.journal == None
    ensures Prepare(d, c, identity).states == []
    ensures Prepare(d, c, identity).outcome == Done <==> c.socket !in d.live && CapacityFile(c.socket) !in d.live
  {
    hide Capacity;
    CapacityIsTheCapacityFile(c.socket);
  }

  /** On a clean journal `prepare` is accepted on its own host exactly while everything is as `finish` left it. */
  lemma PrepareDemandsOnCleanJournal(d: State, c: Config, identity: Identity, j: Journal)
    requires PlainPath(c.socket) && d.journal == Some(j) && j.phase == Clean
    ensures Prepare(d, c, identity).states == []
    ensures Prepare(d, c, identity).outcome == Done <==>
            && j.identity.platform == identity.platform && j.identity.host == identity.host && j.plan == None
            && c.socket !in d.live && CapacityFile(c.socket) !in d.live
            && forall s :: s in j.scratches ==>
                 && s.path in d.live && d.live[s.path].kind == Directory && d.live[s.path].private
                 && d.live[s.path].id == s.metadata && d.live[s.path].contents == {}
  {
    hide Capacity, RunPlan, MakePlan;
    CapacityIsTheCapacityFile(c.socket);
  }

  // ----- prepare, recovering -----

  /** The journal is this configuration's, of this host, from another boot. */
  predicate Recovers(j: Journal, c: Config, identity: Identity) {
    && j.identity.platform == identity.platform && j.identity.host == identity.host
    && j.identity.boot != identity.boot && j.config == c.digest
    && |j.scratches| == |c.scratches| && forall i :: 0 <= i < |j.scratches| ==> j.scratches[i].path == c.scratches[i]
  }

  /** The object with this identity, of this kind and private. */
  predicate ArtifactAt(t: Tree, p: Path, kind: Kind, id: nat) {
    p in t && t[p].kind == kind && t[p].private && t[p].id == id
  }

  /** Where an entry of a plan may be found: not there at all, not moved yet, or moved. */
  predicate EntryFits(t: Tree, e: Entry) {
    match e.metadata
    case None => e.source !in t && e.target !in t
    case Some(id) =>
      || (ArtifactAt(t, e.source, e.kind, id) && e.target !in t)
      || (ArtifactAt(t, e.target, e.kind, id)
          && (e.source !in t || (e.kind == Directory && FreshAt(t, e.source, id))))
  }

  /** A private and empty directory that is not the object `id`. */
  predicate FreshAt(t: Tree, p: Path, id: nat) {
    p in t && t[p].kind == Directory && t[p].private && t[p].id != id && t[p].contents == {}
  }

  lemma EntryIsCheckedExactly(d: State, e: Entry)
    ensures ApplyEntry(d, e, false).outcome == Done <==> EntryFits(d.live, e)
  {
  }

  /** The paths, kinds and identities that the configuration and the journal determine for entry `i`. */
  predicate BoundAt(plan: seq<Entry>, c: Config, j: Journal, i: nat)
    requires PlainPath(c.socket) && i < |plan| == |c.scratches| + 2 && |j.scratches| == |c.scratches|
  {
    var e := plan[i];
    && e.source == (if i == 0 then c.socket else if i == 1 then CapacityFile(c.socket) else j.scratches[i - 2].path)
    && e.kind == (if i == 0 then Socket else if i == 1 then RegularFile else Directory)
    && e.source != [] && e.target == e.source[..|e.source| - 1] + [Quarantine(j.identity.boot, e.source)]
    && (i >= 2 ==> e.metadata == Some(j.scratches[i - 2].metadata))
  }

  lemma BindingIsCheckedExactly(plan: seq<Entry>, c: Config, j: Journal, i: nat)
    requires Placed(c) && SameScratches(j, c) && i < |plan| == |c.scratches| + 2
    ensures BindingError(plan[i], Items(c.socket, j.scratches)[i], j.identity.boot).None? <==> BoundAt(plan, c, j, i)
  {
    hide Capacity, ScratchesApart;
    CapacityIsTheCapacityFile(c.socket);
    ItemsArePlain(c, j.scratches);
    var item := Items(c.socket, j.scratches)[i];
    assert PlainPath(item.source);
    QuarantineIsBeside(j.identity.boot, item.source);
    if i >= 2 {
      assert item == Item(j.scratches[i - 2].path, Directory, Some(j.scratches[i - 2].metadata));
    }
  }

  lemma {:induction false} DryPassIsDone(d: State, plan: seq<Entry>, items: seq<Item>, boot: nat)
    requires |plan| == |items| && Bound(plan, items, boot)
    requires forall i :: 0 <= i < |plan| ==> ApplyEntry(d, plan[i], false).outcome == Done
    ensures DryPass(d, plan, items, boot) == Done
  {
    hide ApplyEntry, BindingError;
    if plan != [] {
      var n := |plan| - 1;
      assert plan[..n][..] == plan[..n] && items[..n][..] == items[..n];
      DryPassIsDone(d, plan[..n], items[..n], boot);
    }
  }

  /** A plan is carried out exactly when every entry is bound and is found where it may be. */
  lemma PlanIsAcceptedExactly(d: State, c: Config, j: Journal, plan: seq<Entry>)
    requires Placed(c) && SameScratches(j, c)
    ensures RunPlan(d, c, j, plan).outcome == Done <==>
            && |plan| == |c.scratches| + 2
            && forall i :: 0 <= i < |plan| ==> BoundAt(plan, c, j, i) && EntryFits(d.live, plan[i])
  {
    hide ScratchesApart, Capacity, ApplyEntry, BindingError, DryPass, Execute, BoundAt, EntryFits;
    var items := Items(c.socket, j.scratches);
    if |plan| == |c.scratches| + 2 {
      forall i | 0 <= i < |plan|
        ensures BindingError(plan[i], items[i], j.identity.boot).None? <==> BoundAt(plan, c, j, i)
        ensures ApplyEntry(d, plan[i], false).outcome == Done <==> EntryFits(d.live, plan[i])
      {
        BindingIsCheckedExactly(plan, c, j, i);
        EntryIsCheckedExactly(d, plan[i]);
      }
      if DryPass(d, plan, items, j.identity.boot) == Done {
        DryPassChecksAll(d, plan, items, j.identity.boot);
        CheckedPlanHasDistinctPaths(d, c, j, plan);
        DryThenExecuteAll(d, plan, |plan|);
        assert plan[..|plan|] == plan;
      } else if
        && Bound(plan, items, j.identity.boot)
        && forall i :: 0 <= i < |plan| ==> ApplyEntry(d, plan[i], false).outcome == Done
      {
        DryPassIsDone(d, plan, items, j.identity.boot);
      }
    }
  }

  /** What has to be there to make a plan: every recorded scratch directory, and nothing unsafe in the other places. */
  predicate Plannable(t: Tree, c: Config, j: Journal)
    requires PlainPath(c.socket)
  {
    && SafeOrAbsent(t, c.socket, Socket) && SafeOrAbsent(t, CapacityFile(c.socket), RegularFile)
    && (forall s :: s in j.scratches ==> ArtifactAt(t, s.path, Directory, s.metadata))
    && FreeTarget(t, j.identity.boot, c.socket) && FreeTarget(t, j.identity.boot, CapacityFile(c.socket))
    && forall s :: s in j.scratches ==> FreeTarget(t, j.identity.boot, s.path)
  }

  predicate SafeOrAbsent(t: Tree, p: Path, kind: Kind) {
    p in t ==> t[p].kind == kind && t[p].private
  }

  predicate FreeTarget(t: Tree, boot: nat, p: Path) {
    p != [] && p[..|p| - 1] + [Quarantine(boot, p)] !in t
  }

  lemma ItemIsPlannedExactly(t: Tree, boot: nat, item: Item)
    requires item.source != [] && (item.kind == Directory <==> item.retained.Some?)
    ensures PlanItem(t, boot, item).Ok? <==>
            && (if item.kind == Directory then ArtifactAt(t, item.source, Directory, item.retained.value)
                else SafeOrAbsent(t, item.source, item.kind))
            && FreeTarget(t, boot, item.source)
  {
    QuarantineIsBeside(boot, item.source);
  }

  /** A plan can be made exactly from such a tree. */
  lemma PlanIsMadeExactly(t: Tree, c: Config, j: Journal)
    requires Placed(c) && SameScratches(j, c)
    ensures MakePlan(t, c.socket, j).Ok? <==> Plannable(t, c, j)
  {
    hide ScratchesApart, Capacity, PlanItem, PlanItems, ArtifactAt, SafeOrAbsent, FreeTarget;
    CapacityIsTheCapacityFile(c.socket);
    ItemsArePlain(c, j.scratches);
    var items := Items(c.socket, j.scratches);
    PlanItemsFacts(t, j.identity.boot, items);
    forall i | 0 <= i < |items|
      ensures PlanItem(t, j.identity.boot, items[i]).Ok? <==>
              && (if items[i].kind == Directory then ArtifactAt(t, items[i].source, Directory, items[i].retained.value)
                  else SafeOrAbsent(t, items[i].source, items[i].kind))
              && FreeTarget(t, j.identity.boot, items[i].source)
    {
      assert PlainPath(items[i].source);
      if i >= 2 {
        assert items[i] == Item(j.scratches[i - 2].path, Directory, Some(j.scratches[i - 2].metadata));
      }
      ItemIsPlannedExactly(t, j.identity.boot, items[i]);
    }
    assert items[0].source == c.socket && items[1].source == CapacityFile(c.socket);
    if Plannable(t, c, j) {
      forall i | 0 <= i < |items|
        ensures PlanItem(t, j.identity.boot, items[i]).Ok?
      {
        if i >= 2 {
          assert items[i] == Item(j.scratches[i - 2].path, Directory, Some(j.scratches[i - 2].metadata));
          assert j.scratches[i - 2] in j.scratches;
        }
      }
    }
    if MakePlan(t, c.socket, j).Ok? {
      forall s | s in j.scratches
        ensures ArtifactAt(t, s.path, Directory, s.metadata) && FreeTarget(t, j.identity.boot, s.path)
      {
        var k :| 0 <= k < |j.scratches| && j.scratches[k] == s;
        assert items[k + 2] == Item(s.path, Directory, Some(s.metadata));
      }
    }
  }

  lemma PlannedEntryFits(t: Tree, boot: nat, item: Item, e: Entry)
    requires PlanItem(t, boot, item) == Ok(e) && (item.kind == Directory <==> item.retained.Some?)
    ensures EntryFits(t, e) && BindingError(e, item, boot).None?
  {
  }

  /** A plan just made is never refused. */
  lemma MadePlanIsAccepted(d: State, d': State, c: Config, j: Journal)
    requires Placed(c) && SameScratches(j, c) && MakePlan(d.live, c.socket, j).Ok? && d'.live == d.live
    ensures RunPlan(d', c, j, MakePlan(d.live, c.socket, j).value).outcome == Done
  {
    hide ScratchesApart, Capacity, PlanItem, PlanItems, RunPlan, EntryFits, BoundAt, BindingError;
    var items, plan := Items(c.socket, j.scratches), MakePlan(d.live, c.socket, j).value;
    PlanItemsFacts(d.live, j.identity.boot, items);
    forall i | 0 <= i < |plan|
      ensures BoundAt(plan, c, j, i) && EntryFits(d'.live, plan[i])
    {
      if i >= 2 {
        assert items[i] == Item(j.scratches[i - 2].path, Directory, Some(j.scratches[i - 2].metadata));
      }
      PlannedEntryFits(d.live, j.identity.boot, items[i], plan[i]);
      BindingIsCheckedExactly(plan, c, j, i);
    }
    PlanIsAcceptedExactly(d', c, j, plan);
  }

  /**
    On an unfinished journal `prepare` is accepted exactly when the journal is this configuration's,
    of this host and from another boot, and either it has no plan and one can be made from the tree,
    or it has one and every entry is bound and is found where a recovery may have left it.
  */
  lemma PrepareDemandsOnActiveJournal(d: State, c: Config, identity: Identity, j: Journal)
    requires Placed(c) && d.journal == Some(j) && j.phase == Active
    ensures Prepare(d, c, identity).outcome == Done <==>
            && Recovers(j, c, identity)
            && (j.plan == None ==> Plannable(d.live, c, j))
            && (j.plan.Some? ==>
                  var plan := j.plan.value;
                  && |plan| == |c.scratches| + 2
                  && forall i :: 0 <= i < |plan| ==> BoundAt(plan, c, j, i) && EntryFits(d.live, plan[i]))
  {
    hide ScratchesApart, Capacity, MakePlan, RunPlan, Plannable, EntryFits, BoundAt;
    if Recovers(j, c, identity) {
      match j.plan {
        case Some(plan) =>
          PlanIsAcceptedExactly(d, c, j, plan);
        case None =>
          PlanIsMadeExactly(d.live, c, j);
          if MakePlan(d.live, c.socket, j).Ok? {
            var written := JournalWritten(d, j.(plan := Some(MakePlan(d.live, c.socket, j).value)));
            SyncedKeepsLive(written[0], d.home);
            MadePlanIsAccepted(d, Last(d, written), c, j);
          }
      }
    }
  }

  // ----- prepare, completed -----

  /**
    The disk of a completed recovery, written out: no socket, no capacity file, every scratch directory
    a new, private and empty one, every artifact whole in its quarantine, and the tree durable.
  */
  lemma CompletionIsOnDisk(d: State, x: Case)
    requires x.Valid() && InProgress(d, x.job, |x.job.plan|) && PlainPath(x.c.socket)
    ensures d.pending == [] && d.durable == d.live
    ensures x.c.socket !in d.live && CapacityFile(x.c.socket) !in d.live
    ensures forall s :: s in x.c.scratches ==>
              && s in d.live && d.live[s].kind == Directory && d.live[s].private && d.live[s].contents == {}
              && d.live[s].id >= x.job.base
    ensures forall i :: 0 <= i < |x.job.plan| && x.job.plan[i].metadata.Some? ==>
              var e := x.job.plan[i];
              e.source in x.job.t0 && e.target in d.live && d.live[e.target] == x.job.t0[e.source]
  {
    hide Case.Valid, InProgress, Capacity;
    CompletionReachesTheEndState(d, x);
    CapacityIsTheCapacityFile(x.c.socket);
  }
}
