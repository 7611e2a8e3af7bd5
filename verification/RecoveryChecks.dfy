/**
  Check, then execute: the dry pass looks at every entry before anything moves, and once it has
  passed the execute pass cannot be refused. Hence a refused `prepare` has moved nothing, on any
  disk whatever, not only on one that an earlier recovery left behind.
*/
module RecoveryChecks {
  import opened Outcomes
  import opened RecoveryJournal
  import opened Disk
  import opened RecoverySpec

  ghost predicate PlainPath(p: Path) {
    p != [] && forall i :: 0 <= i < |p| ==> p[i].Plain?
  }

  /**
    What construction checks, with what the file system guarantees: a socket and a regular file
    have no children, so no scratch directory lies below the socket or the capacity file.
  */
  ghost predicate Placed(c: Config) {
    && PlainPath(c.socket)
    && (forall s :: s in c.scratches ==>
         PlainPath(s) && !AtOrBelow(s, c.socket) && (AtOrBelow(s, Capacity(c.socket)) ==> s == Capacity(c.socket)))
    && ScratchesApart(c)
  }

  ghost predicate DistinctPaths(plan: seq<Entry>) {
    && (forall i, j :: 0 <= i < |plan| && 0 <= j < |plan| ==> plan[i].source != plan[j].target)
    && forall i, j :: 0 <= i < |plan| && 0 <= j < |plan| && i != j ==>
         plan[i].source != plan[j].source && plan[i].target != plan[j].target
  }

  // ----- paths -----

  lemma CapacityIsPlain(socket: Path)
    requires PlainPath(socket)
    ensures PlainPath(Capacity(socket)) && Capacity(socket) != socket && Parent(Capacity(socket)) == Parent(socket)
  {
    var text := socket[|socket| - 1].text;
    assert |text + ".capacity.json"| > |text|;
    assert Capacity(socket)[|socket| - 1] == Plain(text + ".capacity.json");
  }

  lemma TargetsAreNeverSources(boot: nat, p: Path, q: Path)
    requires PlainPath(q)
    ensures TargetOf(boot, p) != q
  {
    var t := TargetOf(boot, p);
    assert t[|t| - 1] == Quarantine(boot, p);
  }

  /** The hash is injective, so different sources have different targets. */
  lemma TargetsAreInjective(boot: nat, p: Path, q: Path)
    ensures TargetOf(boot, p) == TargetOf(boot, q) ==> p == q
  {
    var s, t := TargetOf(boot, p), TargetOf(boot, q);
    assert s[|s| - 1] == Quarantine(boot, p) && t[|t| - 1] == Quarantine(boot, q);
  }

  lemma ItemsArePlain(c: Config, scratches: seq<ScratchRecord>)
    requires Placed(c) && |scratches| == |c.scratches|
    requires forall i :: 0 <= i < |scratches| ==> scratches[i].path == c.scratches[i]
    ensures forall i :: 0 <= i < |scratches| + 2 ==> PlainPath(Items(c.socket, scratches)[i].source)
  {
    CapacityIsPlain(c.socket);
    forall i | 0 <= i < |scratches|
      ensures PlainPath(scratches[i].path)
    {
      assert c.scratches[i] in c.scratches;
    }
  }

  /** Only a scratch directory standing in the capacity file's place could give two entries one source. */
  lemma SourcesDiffer(c: Config, scratches: seq<ScratchRecord>, i: nat, j: nat)
    requires Placed(c) && |scratches| == |c.scratches|
    requires forall k :: 0 <= k < |scratches| ==> scratches[k].path == c.scratches[k]
    requires i < j < |scratches| + 2
    ensures
      var items := Items(c.socket, scratches);
      items[i].source != items[j].source || (i == 1 && items[j].source == Capacity(c.socket))
  {
    CapacityIsPlain(c.socket);
    if i == 0 && j >= 2 {
      assert c.scratches[j - 2] in c.scratches;
    } else if i >= 2 {
      assert Apart(c.scratches[i - 2], c.scratches[j - 2]);
    }
  }

  // ----- what an entry's check depends on -----

  predicate Agree(t: Tree, t': Tree, p: Path) {
    (p in t <==> p in t') && (p in t ==> t[p] == t'[p])
  }

  lemma DryDependsOnItsPaths(d: State, d': State, e: Entry)
    requires Agree(d.live, d'.live, e.source) && Agree(d.live, d'.live, e.target)
    ensures ApplyEntry(d, e, false).outcome == ApplyEntry(d', e, false).outcome
  {
  }

  ghost predicate OnlyTouches(t: Tree, t': Tree, e: Entry) {
    forall p :: p != e.source && p != e.target ==> Agree(t, t', p)
  }

  /** Settling a moved entry is refused by the same condition in both passes. */
  lemma DryThenSettle(d: State, e: Entry, id: nat, present: Option<nat>)
    requires Settle(d, e, id, present, false).outcome == Done
    requires present.None? ==> e.source !in d.live
    ensures Settle(d, e, id, present, true).outcome == Done
    ensures OnlyTouches(d.live, Last(d, Settle(d, e, id, present, true).states).live, e)
  {
    var d1 := Synced(d, Parent(e.source));
    var d2 := MadeDirectory(d1, e.source);
    SyncedKeepsLive(d, Parent(e.source));
    SyncedKeepsLive(d1, e.source);
    SyncedKeepsLive(d2, e.source);
    SyncedKeepsLive(Synced(d1, e.source), Parent(e.source));
    SyncedKeepsLive(Synced(d2, e.source), Parent(e.source));
    hide Synced;
  }

  /** The case in which the artifact is still to be moved. */
  lemma DryThenMove(d: State, e: Entry)
    requires e.source != e.target && e.metadata.Some?
    requires Metadata(d.live, e.source, e.kind) == Ok(e.metadata) && Metadata(d.live, e.target, e.kind) == Ok(None)
    ensures ApplyEntry(d, e, true).outcome == Done
    ensures OnlyTouches(d.live, Last(d, ApplyEntry(d, e, true).states).live, e)
  {
    var id := e.metadata.value;
    var moved := Renamed(d, e.source, e.target);
    assert Settle(moved, e, id, None, false).outcome == Done;
    DryThenSettle(moved, e, id, None);
    hide Settle;
    var rest := Settle(moved, e, id, None, true);
    assert Last(d, [moved] + rest.states) == Last(moved, rest.states);
  }

  /** An entry that passes the dry pass is executed, and only its own two paths change. */
  lemma DryThenExecute(d: State, e: Entry)
    requires e.source != e.target && ApplyEntry(d, e, false).outcome == Done
    ensures ApplyEntry(d, e, true).outcome == Done
    ensures OnlyTouches(d.live, Last(d, ApplyEntry(d, e, true).states).live, e)
  {
    hide Settle, Renamed;
    if e.metadata.Some? {
      var present := Metadata(d.live, e.source, e.kind).value;
      if present == e.metadata && Metadata(d.live, e.target, e.kind).value.None? {
        DryThenMove(d, e);
      } else {
        DryThenSettle(d, e, e.metadata.value, present);
      }
    }
  }

  /** Entries not yet executed still look as they did in the dry pass. */
  lemma {:induction false} DryThenExecuteAll(d: State, plan: seq<Entry>, k: nat)
    requires DistinctPaths(plan) && k <= |plan|
    requires forall i :: 0 <= i < |plan| ==> ApplyEntry(d, plan[i], false).outcome == Done
    ensures Execute(d, plan[..k]).outcome == Done
    ensures
      var t := Last(d, Execute(d, plan[..k]).states).live;
      forall i :: k <= i < |plan| ==> Agree(d.live, t, plan[i].source) && Agree(d.live, t, plan[i].target)
  {
    hide ApplyEntry, Last;
    if k == 0 {
      ExecuteNothing(d, plan);
    } else {
      DryThenExecuteAll(d, plan, k - 1);
      hide Execute;
      var d1 := Last(d, Execute(d, plan[..k - 1]).states);
      DryDependsOnItsPaths(d, d1, plan[k - 1]);
      ExecuteNext(d, plan, k - 1);
      DryThenExecute(d1, plan[k - 1]);
      var d2 := Last(d1, ApplyEntry(d1, plan[k - 1], true).states);
      forall i | k <= i < |plan|
        ensures Agree(d.live, d2.live, plan[i].source) && Agree(d.live, d2.live, plan[i].target)
      {
        assert Agree(d1.live, d2.live, plan[i].source) && Agree(d1.live, d2.live, plan[i].target);
      }
    }
  }

  lemma {:induction false} DryPassChecksAll(d: State, plan: seq<Entry>, items: seq<Item>, boot: nat)
    requires |plan| == |items| && DryPass(d, plan, items, boot) == Done
    ensures Bound(plan, items, boot)
    ensures forall i :: 0 <= i < |plan| ==> ApplyEntry(d, plan[i], false).outcome == Done
  {
    hide ApplyEntry, BindingError;
    if plan != [] {
      DryPassChecksAll(d, plan[..|plan| - 1], items[..|items| - 1], boot);
      assert forall i :: 0 <= i < |plan| - 1 ==>
        plan[..|plan| - 1][i] == plan[i] && items[..|items| - 1][i] == items[i];
    }
  }

  /** A regular file and a directory cannot both pass at one path with a recorded directory. */
  lemma KindsClash(d: State, e: Entry, f: Entry)
    requires e.source == f.source && e.target == f.target
    requires e.kind == RegularFile && f.kind == Directory && f.metadata.Some?
    requires ApplyEntry(d, e, false).outcome == Done
    ensures ApplyEntry(d, f, false).outcome != Done
  {
  }

  /** Bindings, the configuration and the dry pass together keep all paths of a plan distinct. */
  lemma CheckedPlanHasDistinctPaths(d: State, c: Config, j: Journal, plan: seq<Entry>)
    requires Placed(c) && SameScratches(j, c) && |plan| == |j.scratches| + 2
    requires Bound(plan, Items(c.socket, j.scratches), j.identity.boot)
    requires forall i :: 0 <= i < |plan| ==> ApplyEntry(d, plan[i], false).outcome == Done
    ensures DistinctPaths(plan)
  {
    hide ApplyEntry, Placed;
    var items := Items(c.socket, j.scratches);
    ItemsArePlain(c, j.scratches);
    forall i, k | 0 <= i < |plan| && 0 <= k < |plan|
      ensures plan[i].source != plan[k].target
    {
      assert BindingError(plan[i], items[i], j.identity.boot).None?
        && BindingError(plan[k], items[k], j.identity.boot).None?;
      TargetsAreNeverSources(j.identity.boot, items[k].source, items[i].source);
    }
    forall i, k | 0 <= i < k < |plan|
      ensures plan[i].source != plan[k].source && plan[i].target != plan[k].target
    {
      assert BindingError(plan[i], items[i], j.identity.boot).None?
        && BindingError(plan[k], items[k], j.identity.boot).None?;
      SourcesDiffer(c, j.scratches, i, k);
      TargetsAreInjective(j.identity.boot, items[i].source, items[k].source);
      if items[i].source == items[k].source {
        assert items[1].kind == RegularFile && items[k].kind == Directory;
        KindsClash(d, plan[i], plan[k]);
      }
    }
  }

  /** A checked plan is executed to the end; an unchecked one is not begun. */
  lemma RunPlanChecksFirst(d: State, c: Config, j: Journal, plan: seq<Entry>)
    requires Placed(c) && SameScratches(j, c)
    ensures RunPlan(d, c, j, plan).outcome.Refused? ==> RunPlan(d, c, j, plan).states == []
  {
    hide DryPass, Execute, Placed, ApplyEntry, BindingError, Items;
    if |plan| == |c.scratches| + 2 && DryPass(d, plan, Items(c.socket, j.scratches), j.identity.boot) == Done {
      DryPassChecksAll(d, plan, Items(c.socket, j.scratches), j.identity.boot);
      CheckedPlanHasDistinctPaths(d, c, j, plan);
      DryThenExecuteAll(d, plan, |plan|);
      assert plan[..|plan|] == plan;
    }
  }

  /** A refused `prepare` has moved nothing; at most it has written the plan it then refused. */
  lemma RefusedPrepareMovesNothing(d: State, c: Config, identity: Identity)
    requires Placed(c) && Prepare(d, c, identity).outcome.Refused?
    ensures forall s :: s in Prepare(d, c, identity).states ==> s.live == d.live
  {
    hide RunPlan, MakePlan, Placed;
    if d.journal.Some? && PrepareRefusal(d.journal.value, c, identity).None? && d.journal.value.phase == Active {
      var j := d.journal.value;
      match j.plan {
        case Some(plan) => RunPlanChecksFirst(d, c, j, plan);
        case None =>
          if MakePlan(d.live, c.socket, j).Ok? {
            var plan := MakePlan(d.live, c.socket, j).value;
            RunPlanChecksFirst(Last(d, JournalWritten(d, j.(plan := Some(plan)))), c, j, plan);
          }
      }
    }
  }
}
