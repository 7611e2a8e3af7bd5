/**
  The recovery object as the service runs it: one journal record in memory, one file system on
  which it works step by step. Every method is proved to pass through exactly the disk states that
  `RecoverySpec` gives for it, so what holds of those traces holds of the running program.
*/
module RebootRecovery {
  import opened Outcomes
  import opened RecoveryJournal
  import opened Disk
  import opened RecoverySpec
  import opened RecoveryChecks
  import opened RecoveryCrash
  import opened RecoveryRoundTrip
  import Spec = RecoverySpec

  /** The checks of the constructor, worker by worker. */
  method CheckScratches(c: Config) returns (ok: bool)
    ensures ok <==> ScratchesApart(c)
    ensures ok <==> (forall s :: s in c.scratches ==> !(s <= c.path) && !(s <= c.socket))
                    && forall i, j :: 0 <= i < |c.scratches| && 0 <= j < |c.scratches| && i != j ==>
                         !(c.scratches[i] <= c.scratches[j])
  {
    for i := 0 to |c.scratches|
      invariant forall k :: 0 <= k < i ==> !AtOrBelow(c.path, c.scratches[k]) && !AtOrBelow(c.socket, c.scratches[k])
      invariant forall k, m :: 0 <= k < i && 0 <= m < |c.scratches| && c.scratches[m] != c.scratches[k] ==>
                  !AtOrBelow(c.scratches[m], c.scratches[k])
    {
      var scratch := c.scratches[i];
      if AtOrBelow(c.path, scratch) || AtOrBelow(c.socket, scratch) {
        return false;
      }
      for m := 0 to |c.scratches|
        invariant forall l :: 0 <= l < m && c.scratches[l] != scratch ==> !AtOrBelow(c.scratches[l], scratch)
      {
        if c.scratches[m] != scratch && AtOrBelow(c.scratches[m], scratch) {
          return false;
        }
      }
    }
    for i := 0 to |c.scratches|
      invariant forall k, m :: 0 <= k < m < |c.scratches| && k < i ==> c.scratches[k] != c.scratches[m]
    {
      for m := i + 1 to |c.scratches|
        invariant forall l :: i < l < m ==> c.scratches[i] != c.scratches[l]
      {
        if c.scratches[i] == c.scratches[m] {
          return false;
        }
      }
    }
    return true;
  }

  class RebootRecovery {
    const fs: FileSystem
    const config: Config
    const identity: Identity
    var state: Option<Journal>

    /** The record in memory is the journal on disk. */
    ghost predicate Valid()
      reads this, fs
    {
      state == fs.state.journal
    }

    /** Runs only after `CheckScratches` has accepted the configuration. */
    constructor (fs: FileSystem, config: Config, identity: Identity)
      requires ScratchesApart(config)
      ensures Valid() && this.fs == fs && this.config == config && this.identity == identity
    {
      this.fs, this.config, this.identity := fs, config, identity;
      this.state := fs.state.journal;
    }

    /** What a call did: it passed through exactly the states of `trace` and ended as `trace` says. */
    twostate predicate Did(trace: Trace, outcome: Outcome)
      reads this, fs
    {
      && outcome == trace.outcome
      && fs.history == old(fs.history) + trace.states
      && fs.state == Last(old(fs.state), trace.states)
    }

    method Write(j: Journal)
      modifies this`state, fs
      ensures Valid() && state == Some(j)
      ensures Did(Trace(JournalWritten(old(fs.state), j), Done), Done)
    {
      fs.ReplaceJournal(j);
      fs.SyncDirectory(fs.state.home);
      state := Some(j);
    }

    method CleanScratches(scratches: seq<ScratchRecord>) returns (ok: bool)
      ensures ok <==> ScratchesClean(fs.state.live, scratches)
      ensures ok <==> forall s :: s in scratches ==>
                && s.path in fs.state.live
                && var o := fs.state.live[s.path];
                   o.kind == Directory && o.private && o.id == s.metadata && o.contents == {}
    {
      for i := 0 to |scratches|
        invariant ScratchesClean(fs.state.live, scratches[..i])
      {
        var s := scratches[i];
        assert s in scratches;
        if !PrivateDirectory(fs.state.live, s.path) || fs.state.live[s.path].id != s.metadata
          || Occupied(fs.state.live, s.path) {
          return false;
        }
        assert scratches[..i + 1] == scratches[..i] + [s];
      }
      assert scratches[..|scratches|] == scratches;
      return true;
    }

    /** The plan over everything the journal retains. */
    method Entries(j: Journal) returns (r: Result<seq<Entry>, Refusal>)
      ensures r == MakePlan(fs.state.live, config.socket, j)
    {
      var items := Items(config.socket, j.scratches);
      var plan := [];
      for i := 0 to |items|
        invariant PlanItems(fs.state.live, j.identity.boot, items[..i]) == Ok(plan)
      {
        hide Items, Metadata, TargetOf;
        var item := items[i];
        assert items[..i + 1][..i] == items[..i];
        var entry := PlanItem(fs.state.live, j.identity.boot, item);
        if entry.Err? {
          PlanStopsAt(fs.state.live, j.identity.boot, items, i);
          return Err(entry.error);
        }
        plan := plan + [entry.value];
      }
      assert items[..|items|] == items;
      return Ok(plan);
    }

    /** One plan entry: checked in the dry pass, carried out in the execute pass. */
    method Apply(e: Entry, execute: bool) returns (outcome: Outcome)
      requires Valid()
      modifies fs
      ensures Valid()
      ensures Did(ApplyEntry(old(fs.state), e, execute), outcome)
    {
      hide Synced, Metadata, Occupied;
      ghost var d := fs.state;
      var source := Metadata(fs.state.live, e.source, e.kind);
      if source.Err? {
        return Refused(source.error);
      }
      var target := Metadata(fs.state.live, e.target, e.kind);
      if target.Err? {
        return Refused(target.error);
      }
      var present, quarantined := source.value, target.value;
      MetadataShowsPresence(fs.state.live, e.source, e.kind);
      MetadataShowsPresence(fs.state.live, e.target, e.kind);
      if e.metadata.None? {
        return if present.Some? || quarantined.Some? then Refused(UnexpectedArtifact) else Done;
      }
      if present == e.metadata && quarantined.None? {
        if !execute {
          return Done;
        }
        fs.MoveObject(e.source, e.target);
        present, quarantined := None, e.metadata;
      }
      if quarantined != e.metadata {
        return Refused(IdentityDiffers);
      }
      outcome := SettleMoved(e, present, execute);
      assert fs.state.journal == d.journal by { EntryKeepsRecord(d, e, execute); }
    }

    /** From the moved artifact on. */
    method SettleMoved(e: Entry, present: Option<nat>, execute: bool) returns (outcome: Outcome)
      requires e.metadata.Some? && (present.None? ==> e.source !in fs.state.live)
      modifies fs
      ensures Did(Settle(old(fs.state), e, e.metadata.value, present, execute), outcome)
    {
      hide Synced, Occupied, Perform;
      SyncedKeepsLive(fs.state, Parent(e.source));
      if execute {
        // An earlier attempt may have moved the artifact without reaching this barrier.
        fs.SyncDirectory(Parent(e.source));
      }
      if e.kind == Directory {
        if present.Some? && (present == e.metadata || Occupied(fs.state.live, e.source)) {
          return Refused(ReplacementOccupied);
        }
        if present.None? && execute {
          fs.CreateDirectory(e.source);
        }
        if execute {
          fs.SyncDirectory(e.source);
          fs.SyncDirectory(Parent(e.source));
        }
      } else if present.Some? {
        return Refused(ArtifactReappeared);
      }
      return Done;
    }

    /** Recovers what an unfinished service left behind, or checks that there is nothing to recover. */
    method Prepare() returns (outcome: Outcome)
      requires Valid()
      modifies this`state, fs
      ensures Valid()
      ensures Did(Spec.Prepare(old(fs.state), config, identity), outcome)
    {
      hide MakePlan, Items, ScratchesClean, NoSocketArtifacts, RunPlan, JournalWritten;
      if state.None? {
        return if NoSocketArtifacts(fs.state.live, config.socket) then Done else Refused(RetainedSocket);
      }
      var j := state.value;
      var refusal := PrepareRefusal(j, config, identity);
      if refusal.Some? {
        return Refused(refusal.value);
      }
      if j.phase == Clean {
        if j.plan.Some? {
          return Refused(PendingInCleanJournal);
        }
        if !NoSocketArtifacts(fs.state.live, config.socket) {
          return Refused(RetainedSocket);
        }
        var clean := CleanScratches(j.scratches);
        return if clean then Done else Refused(ScratchNotClean);
      }
      if j.plan.None? {
        var made := Entries(j);
        if made.Err? {
          return Refused(made.error);
        }
        Write(j.(plan := Some(made.value)));
        outcome := CarryOut(j, made.value);
      } else {
        outcome := CarryOut(j, j.plan.value);
      }
    }

    /** The dry pass over the whole plan, then the execute pass. */
    method CarryOut(j: Journal, plan: seq<Entry>) returns (outcome: Outcome)
      requires Valid()
      modifies fs
      ensures Valid()
      ensures Did(RunPlan(old(fs.state), config, j, plan), outcome)
    {
      hide ApplyEntry, BindingError, Items;
      if |plan| != |config.scratches| + 2 || |j.scratches| != |config.scratches| {
        return Refused(InvalidPlan);
      }
      outcome := CheckAll(plan, Items(config.socket, j.scratches), j.identity.boot);
      if outcome == Done {
        outcome := ExecuteAll(plan);
      }
    }

    method CheckAll(plan: seq<Entry>, items: seq<Item>, boot: nat) returns (outcome: Outcome)
      requires Valid() && |plan| == |items|
      modifies fs
      ensures Valid() && fs.state == old(fs.state) && fs.history == old(fs.history)
      ensures outcome == DryPass(fs.state, plan, items, boot)
    {
      hide ApplyEntry, BindingError;
      ghost var d, h := fs.state, fs.history;
      for i := 0 to |plan|
        invariant Valid() && fs.state == d && fs.history == h
        invariant DryPass(d, plan[..i], items[..i], boot) == Done
      {
        assert plan[..i + 1][..i] == plan[..i] && items[..i + 1][..i] == items[..i];
        var unbound := BindingError(plan[i], items[i], boot);
        if unbound.Some? {
          DryPassStopsAt(d, plan, items, boot, i);
          return Refused(unbound.value);
        }
        outcome := Apply(plan[i], false);
        DryPassChangesNothing(d, plan[i]);
        if outcome.Refused? {
          DryPassStopsAt(d, plan, items, boot, i);
          return;
        }
      }
      assert plan[..|plan|] == plan && items[..|items|] == items;
      return Done;
    }

    method ExecuteAll(plan: seq<Entry>) returns (outcome: Outcome)
      requires Valid()
      modifies fs
      ensures Valid()
      ensures Did(Execute(old(fs.state), plan), outcome)
    {
      hide ApplyEntry, Execute, Last;
      ghost var d, h := fs.state, fs.history;
      ExecuteNothing(d, plan);
      for i := 0 to |plan|
        invariant Valid()
        invariant
          var done := Execute(d, plan[..i]);
          done.outcome == Done && fs.history == h + done.states && fs.state == Last(d, done.states)
      {
        ExecuteNext(d, plan, i);
        outcome := Apply(plan[i], true);
        if outcome.Refused? {
          ExecuteStopsAt(d, plan, i);
          return;
        }
      }
      assert plan[..|plan|] == plan;
      return Done;
    }

    /** Records a run that is about to start serving. */
    method Begin() returns (outcome: Outcome)
      requires Valid()
      modifies this`state, fs
      ensures Valid()
      ensures Did(Spec.Begin(old(fs.state), config, identity), outcome)
      ensures outcome == Done <==>
              && config.socket !in old(fs.state).live && Capacity(config.socket) !in old(fs.state).live
              && forall p :: p in config.scratches ==>
                   && p in old(fs.state).live
                   && var o := old(fs.state).live[p];
                      o.kind == Directory && o.private && o.contents == {}
    {
      hide NoSocketArtifacts, PrivateDirectory, Occupied, JournalWritten, Capacity;
      BeginIsAcceptedExactlyWhenClean(fs.state, config, identity);
      if !NoSocketArtifacts(fs.state.live, config.socket) {
        return Refused(RetainedSocket);
      }
      var records := [];
      for i := 0 to |config.scratches|
        invariant Recorded(fs.state.live, config.scratches[..i]) == Ok(records)
        modifies {}
      {
        var p := config.scratches[i];
        assert config.scratches[..i + 1][..i] == config.scratches[..i];
        if !PrivateDirectory(fs.state.live, p) {
          RecordingStopsAt(fs.state.live, config.scratches, i, ScratchUnsafe);
          return Refused(ScratchUnsafe);
        }
        if Occupied(fs.state.live, p) {
          RecordingStopsAt(fs.state.live, config.scratches, i, ScratchNotEmpty);
          return Refused(ScratchNotEmpty);
        }
        DirectoryIsThere(fs.state.live, p);
        records := records + [ScratchRecord(p, fs.state.live[p].id)];
      }
      assert config.scratches[..|config.scratches|] == config.scratches;
      Write(Journal(config.digest, identity, Active, records, None));
      return Done;
    }

    /** Records that the sidecar has shut down gracefully. */
    method Finish() returns (outcome: Outcome)
      requires Valid() && state.Some?
      modifies this`state, fs
      ensures Valid()
      ensures Did(Spec.Finish(old(fs.state), config, old(state).value), outcome)
      ensures outcome == Done <==>
              && config.socket !in old(fs.state).live && Capacity(config.socket) !in old(fs.state).live
              && forall s :: s in old(state).value.scratches ==>
                   && s.path in old(fs.state).live
                   && var o := old(fs.state).live[s.path];
                      o.kind == Directory && o.private && o.id == s.metadata && o.contents == {}
    {
      hide ScratchesClean, JournalWritten, Capacity;
      if !NoSocketArtifacts(fs.state.live, config.socket) {
        return Refused(RetainedSocket);
      }
      var clean := CleanScratches(state.value.scratches);
      if !clean {
        return Refused(ScratchNotClean);
      }
      Write(state.value.(phase := Clean));
      return Done;
    }
  }

  lemma {:induction false} PlanStopsAt(t: Tree, boot: nat, items: seq<Item>, i: nat)
    requires i < |items| && PlanItems(t, boot, items[..i]).Ok? && PlanItem(t, boot, items[i]).Err?
    ensures PlanItems(t, boot, items) == Err(PlanItem(t, boot, items[i]).error)
  {
    hide PlanItem;
    if i == |items| - 1 {
    } else {
      assert items[..|items| - 1][..i] == items[..i];
      PlanStopsAt(t, boot, items[..|items| - 1], i);
    }
  }

  lemma MetadataShowsPresence(t: Tree, p: Path, kind: Kind)
    ensures Metadata(t, p, kind).Ok? ==> (Metadata(t, p, kind).value.Some? <==> p in t)
  {
  }

  lemma DirectoryIsThere(t: Tree, p: Path)
    requires PrivateDirectory(t, p)
    ensures p in t
  {
  }

  /** Working on artifacts leaves the journal record alone. */
  lemma EntryKeepsRecord(d: State, e: Entry, execute: bool)
    ensures Last(d, ApplyEntry(d, e, execute).states).journal == d.journal
  {
    hide ApplyEntry;
    if execute {
      EntryKeepsJournal(d, e);
      AllAndLast(d, ApplyEntry(d, e, true).states);
    } else {
      DryPassChangesNothing(d, e);
    }
  }

  lemma DryPassChangesNothing(d: State, e: Entry)
    ensures ApplyEntry(d, e, false).states == []
  {
  }

  lemma {:induction false} DryPassStopsAt(d: State, plan: seq<Entry>, items: seq<Item>, boot: nat, i: nat)
    requires |plan| == |items| && i < |plan| && DryPass(d, plan[..i], items[..i], boot) == Done
    requires DryPass(d, plan[..i + 1], items[..i + 1], boot).Refused?
    ensures DryPass(d, plan, items, boot) == DryPass(d, plan[..i + 1], items[..i + 1], boot)
  {
    hide ApplyEntry, BindingError;
    if i == |plan| - 1 {
      assert plan[..i + 1] == plan && items[..i + 1] == items;
    } else {
      var p, t := plan[..|plan| - 1], items[..|items| - 1];
      assert p[..i] == plan[..i] && p[..i + 1] == plan[..i + 1] && t[..i] == items[..i] && t[..i + 1] == items[..i + 1];
      DryPassStopsAt(d, p, t, boot, i);
    }
  }

  lemma {:induction false} ExecuteStopsAt(d: State, plan: seq<Entry>, i: nat)
    requires i < |plan| && Execute(d, plan[..i + 1]).outcome.Refused?
    ensures Execute(d, plan) == Execute(d, plan[..i + 1])
  {
    hide ApplyEntry;
    if i == |plan| - 1 {
      assert plan[..i + 1] == plan;
    } else {
      assert plan[..|plan| - 1][..i + 1] == plan[..i + 1];
      ExecuteStopsAt(d, plan[..|plan| - 1], i);
    }
  }

  lemma {:induction false} RecordingStopsAt(t: Tree, scratches: seq<Path>, i: nat, why: Refusal)
    requires i < |scratches| && Recorded(t, scratches[..i]).Ok?
    requires why == if !PrivateDirectory(t, scratches[i]) then ScratchUnsafe else ScratchNotEmpty
    requires PrivateDirectory(t, scratches[i]) ==> Occupied(t, scratches[i])
    ensures Recorded(t, scratches) == Err(why)
  {
    if i != |scratches| - 1 {
      assert scratches[..|scratches| - 1][..i] == scratches[..i];
      RecordingStopsAt(t, scratches[..|scratches| - 1], i, why);
    }
  }
}
