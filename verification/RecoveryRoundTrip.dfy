/** An undisturbed life of the journal: what `begin` records is what `finish` and the next `prepare` verify. */
module RecoveryRoundTrip {
  import opened Outcomes
  import opened RecoveryJournal
  import opened Disk
  import opened RecoverySpec

  /** The records are the configured directories, each present, private, empty and with its identity. */
  lemma {:induction false} RecordsAreClean(t: Tree, scratches: seq<Path>)
    ensures Recorded(t, scratches).Ok? <==>
            forall p :: p in scratches ==> p in t && t[p].kind == Directory && t[p].private && t[p].contents == {}
    ensures Recorded(t, scratches).Ok? ==>
              var records := Recorded(t, scratches).value;
              && |records| == |scratches| && ScratchesClean(t, records)
              && forall i :: 0 <= i < |records| ==>
                   scratches[i] in t && records[i] == ScratchRecord(scratches[i], t[scratches[i]].id)
  {
    if scratches != [] {
      var front, last := scratches[..|scratches| - 1], scratches[|scratches| - 1];
      assert scratches == front + [last];
      RecordsAreClean(t, front);
      if Recorded(t, scratches).Ok? {
        var records := Recorded(t, scratches).value;
        assert records == Recorded(t, front).value + [ScratchRecord(last, t[last].id)];
      }
    }
  }

  /** `begin` is accepted exactly when no socket artifact stands and every scratch directory is private and empty. */
  lemma BeginIsAcceptedExactlyWhenClean(d: State, c: Config, identity: Identity)
    ensures Begin(d, c, identity).outcome == Done <==>
            && c.socket !in d.live && Capacity(c.socket) !in d.live
            && forall p :: p in c.scratches ==>
                 p in d.live && d.live[p].kind == Directory && d.live[p].private && d.live[p].contents == {}
  {
    hide Recorded;
    RecordsAreClean(d.live, c.scratches);
  }

  /** A run that leaves the files as it found them can finish. */
  lemma BeginThenFinish(d: State, d': State, c: Config, identity: Identity)
    requires Begin(d, c, identity).outcome == Done
    requires d'.live == d.live && d'.journal == Last(d, Begin(d, c, identity).states).journal
    ensures d'.journal.Some? && d'.journal.value.identity == identity && SameScratches(d'.journal.value, c)
    ensures Finish(d', c, d'.journal.value).outcome == Done
  {
    hide Recorded, NoSocketArtifacts, ScratchesClean, Synced;
    RecordsAreClean(d.live, c.scratches);
    HomeKeepsJournal(JournalReplaced(d, Begin(d, c, identity).states[0].journal.value));
  }

  lemma HomeKeepsJournal(d: State)
    ensures Synced(d, d.home).journal == d.journal == Synced(d, d.home).durableJournal
  {
  }

  /**
    After `finish` the next start on this host is accepted, in this or any later boot and even under
    a changed configuration with the same socket, exactly as long as the files are as `finish` left them.
  */
  lemma FinishThenPrepare(d: State, d': State, c: Config, c': Config, j: Journal, identity: Identity)
    requires Finish(d, c, j).outcome == Done && j.plan == None
    requires d'.journal == Last(d, Finish(d, c, j).states).journal
    requires identity.platform == j.identity.platform && identity.host == j.identity.host
    ensures Prepare(d', c', identity).states == []
    ensures Prepare(d', c', identity).outcome == Done <==>
            && c'.socket !in d'.live && Capacity(c'.socket) !in d'.live
            && forall s :: s in j.scratches ==>
                 && s.path in d'.live && d'.live[s.path].kind == Directory && d'.live[s.path].private
                 && d'.live[s.path].id == s.metadata && d'.live[s.path].contents == {}
    ensures d'.live == d.live && c'.socket == c.socket ==> Prepare(d', c', identity).outcome == Done
  {
    hide Synced, RunPlan, MakePlan;
    HomeKeepsJournal(JournalReplaced(d, j.(phase := Clean)));
  }
}
