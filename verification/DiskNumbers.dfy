/**
  Identities are never handed out twice: in every state that recovery passes through, each object,
  and each directory a crash might still bring back, has an identity below the next one.
*/
module DiskNumbers {
  import opened Outcomes
  import opened RecoveryJournal
  import opened Disk
  import opened RecoverySpec
  import opened RecoveryProgress

  ghost predicate Below(t: Tree, n: nat) {
    forall p :: p in t ==> t[p].id < n
  }

  ghost predicate OpsBelow(ops: seq<Op>, n: nat) {
    forall i :: 0 <= i < |ops| && ops[i].MakeDirectory? ==> ops[i].id < n
  }

  ghost predicate Numbered(d: State) {
    Below(d.live, d.nextId) && Below(d.durable, d.nextId) && OpsBelow(d.pending, d.nextId)
  }

  lemma PerformBelow(t: Tree, op: Op, n: nat)
    requires Below(t, n) && (op.MakeDirectory? ==> op.id < n)
    ensures Below(Perform(t, op), n)
  {
  }

  lemma {:induction false} PerformAllBelow(t: Tree, ops: seq<Op>, n: nat)
    requires Below(t, n) && OpsBelow(ops, n)
    ensures Below(PerformAll(t, ops), n)
  {
    hide Perform, Below;
    if ops != [] {
      PerformAllBelow(t, ops[..|ops| - 1], n);
      PerformBelow(PerformAll(t, ops[..|ops| - 1]), ops[|ops| - 1], n);
    }
  }

  lemma {:induction false} WithinBelow(ops: seq<Op>, dir: Path, inside: bool, n: nat)
    requires OpsBelow(ops, n)
    ensures OpsBelow(Within(ops, dir, inside), n)
  {
    if ops != [] {
      WithinBelow(ops[..|ops| - 1], dir, inside, n);
    }
  }

  lemma {:induction false} SelectionBelow(kept: seq<Op>, ops: seq<Op>, n: nat)
    requires Selection(kept, ops) && OpsBelow(ops, n)
    ensures OpsBelow(kept, n)
  {
    if ops != [] {
      var front := ops[..|ops| - 1];
      if Selection(kept, front) {
        SelectionBelow(kept, front, n);
      } else {
        SelectionBelow(kept[..|kept| - 1], front, n);
      }
    }
  }

  lemma RenamedNumbered(d: State, source: Path, target: Path)
    requires Numbered(d)
    ensures Numbered(Renamed(d, source, target))
  {
    hide Below, Perform;
    PerformBelow(d.live, Rename(source, target), d.nextId);
  }

  lemma MadeNumbered(d: State, path: Path)
    requires Numbered(d)
    ensures Numbered(MadeDirectory(d, path))
  {
    hide Perform;
    PerformBelow(d.live, MakeDirectory(path, d.nextId), d.nextId + 1);
  }

  lemma SyncedNumbered(d: State, dir: Path)
    requires Numbered(d)
    ensures Numbered(Synced(d, dir))
  {
    hide Below, PerformAll, Within;
    WithinBelow(d.pending, dir, true, d.nextId);
    WithinBelow(d.pending, dir, false, d.nextId);
    PerformAllBelow(d.durable, Within(d.pending, dir, true), d.nextId);
  }

  lemma CrashNumbered(d: State, after: State)
    requires Numbered(d) && CrashesTo(d, after)
    ensures Numbered(after)
  {
    hide Below, PerformAll, Selection;
    var kept :| Selection(kept, d.pending) && after.live == PerformAll(d.durable, kept);
    SelectionBelow(kept, d.pending, d.nextId);
    PerformAllBelow(d.durable, kept, d.nextId);
  }

  ghost predicate AllNumbered(states: seq<State>) {
    forall i :: 0 <= i < |states| ==> Numbered(states[i])
  }

  lemma LastNumbered(d: State, states: seq<State>)
    requires Numbered(d) && AllNumbered(states)
    ensures Numbered(Last(d, states))
  {
  }

  lemma SettleNumbered(d: State, e: Entry, id: nat, present: Option<nat>)
    requires Numbered(d)
    ensures AllNumbered(Settle(d, e, id, present, true).states)
  {
    hide Numbered, Synced, MadeDirectory, Occupied;
    var d1 := Synced(d, Parent(e.source));
    SyncedNumbered(d, Parent(e.source));
    MadeNumbered(d1, e.source);
    var d2 := if present.None? then MadeDirectory(d1, e.source) else d1;
    SyncedNumbered(d2, e.source);
    SyncedNumbered(Synced(d2, e.source), Parent(e.source));
  }

  lemma EntryNumbered(d: State, e: Entry)
    requires Numbered(d)
    ensures AllNumbered(ApplyEntry(d, e, true).states)
  {
    hide Numbered, Settle, Renamed, Metadata;
    var moved := Renamed(d, e.source, e.target);
    RenamedNumbered(d, e.source, e.target);
    if e.metadata.Some? && Metadata(d.live, e.source, e.kind).Ok? {
      SettleNumbered(moved, e, e.metadata.value, None);
      SettleNumbered(d, e, e.metadata.value, Metadata(d.live, e.source, e.kind).value);
    }
  }

  lemma {:induction false} ExecuteNumbered(d: State, plan: seq<Entry>)
    requires Numbered(d)
    ensures AllNumbered(Execute(d, plan).states)
  {
    hide Numbered, ApplyEntry, Last;
    if plan != [] {
      var front := Execute(d, plan[..|plan| - 1]);
      ExecuteNumbered(d, plan[..|plan| - 1]);
      if front.outcome == Done {
        LastNumbered(d, front.states);
        EntryNumbered(Last(d, front.states), plan[|plan| - 1]);
      }
    }
  }

  lemma RunPlanNumbered(d: State, c: Config, j: Journal, plan: seq<Entry>)
    requires Numbered(d)
    ensures AllNumbered(RunPlan(d, c, j, plan).states)
  {
    hide Numbered, DryPass, Execute;
    ExecuteNumbered(d, plan);
  }

  lemma WrittenNumbered(d: State, j: Journal)
    requires Numbered(d)
    ensures AllNumbered(JournalWritten(d, j)) && Last(d, JournalWritten(d, j)) == JournalWritten(d, j)[1]
  {
    hide Synced;
    SyncedNumbered(JournalReplaced(d, j), d.home);
  }

  lemma PrepareNumbered(d: State, c: Config, identity: Identity)
    requires Numbered(d)
    ensures AllNumbered(Prepare(d, c, identity).states)
  {
    hide Numbered, RunPlan, MakePlan, JournalWritten, ScratchesClean, NoSocketArtifacts;
    if d.journal.Some? {
      var j := d.journal.value;
      if j.plan.Some? {
        RunPlanNumbered(d, c, j, j.plan.value);
      } else if MakePlan(d.live, c.socket, j).Ok? {
        var plan := MakePlan(d.live, c.socket, j).value;
        var written := JournalWritten(d, j.(plan := Some(plan)));
        WrittenNumbered(d, j.(plan := Some(plan)));
        LastNumbered(d, written);
        RunPlanNumbered(Last(d, written), c, j, plan);
      }
    }
  }
}
