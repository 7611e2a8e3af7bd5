/**
  `RebootRecovery` as functions of the disk: the checks, the plan, and for every run of `prepare`
  the exact sequence of disk states it passes through together with its outcome.
*/
module RecoverySpec {
  import opened Outcomes
  import opened RecoveryJournal
  import opened Disk

  datatype Refusal =
    | UnsafeArtifact | IdentityChanged | TargetExists | UnexpectedArtifact | IdentityDiffers
    | ReplacementOccupied | ArtifactReappeared | RetainedSocket | ScratchNotClean | ScratchUnsafe | ScratchNotEmpty
    | OtherHost | PendingInCleanJournal | UnfinishedInCurrentBoot | ConfigurationChanged | InvalidPlan
    | BindingDiffers | ScratchBindingDiffers | OverlappingPaths

  datatype Outcome = Done | Refused(why: Refusal)

  /** The reviewed configuration: socket and scratch paths, its own path and digest. */
  datatype Config = Config(socket: Path, path: Path, digest: nat, scratches: seq<Path>)

  // ----- construction -----

  /** Scratch directories hold no control file and are pairwise separate. */
  ghost predicate ScratchesApart(c: Config) {
    && (forall s :: s in c.scratches ==> !AtOrBelow(c.path, s) && !AtOrBelow(c.socket, s))
    && (forall i, j :: 0 <= i < j < |c.scratches| ==> Apart(c.scratches[i], c.scratches[j]))
  }

  // ----- looking at artifacts -----

  function Metadata(t: Tree, p: Path, kind: Kind): Result<Option<nat>, Refusal> {
    if p !in t then Ok(None)
    else if t[p].kind != kind || !t[p].private then Err(UnsafeArtifact)
    else Ok(Some(t[p].id))
  }

  predicate Occupied(t: Tree, p: Path) {
    p in t && t[p].contents != {}
  }

  /** The capacity file stands beside the socket, under the socket's name with a suffix. */
  function Capacity(socket: Path): Path {
    if socket == [] || socket[|socket| - 1].Quarantine? then socket + [Plain(".capacity.json")]
    else Parent(socket) + [Plain(socket[|socket| - 1].text + ".capacity.json")]
  }

  function TargetOf(boot: nat, source: Path): Path {
    Parent(source) + [Quarantine(boot, source)]
  }

  predicate NoSocketArtifacts(t: Tree, socket: Path) {
    socket !in t && Capacity(socket) !in t
  }

  predicate PrivateDirectory(t: Tree, p: Path) {
    p in t && t[p].kind == Directory && t[p].private
  }

  /** Every retained scratch is the recorded directory, and empty. */
  predicate ScratchesClean(t: Tree, scratches: seq<ScratchRecord>) {
    forall s :: s in scratches ==>
      PrivateDirectory(t, s.path) && t[s.path].id == s.metadata && !Occupied(t, s.path)
  }

  // ----- the plan -----

  datatype Item = Item(source: Path, kind: Kind, retained: Option<nat>)

  function Items(socket: Path, scratches: seq<ScratchRecord>): (r: seq<Item>)
    ensures |r| == |scratches| + 2
    ensures r[0] == Item(socket, Socket, None) && r[1] == Item(Capacity(socket), RegularFile, None)
    ensures forall i :: 0 <= i < |scratches| ==>
            r[i + 2] == Item(scratches[i].path, Directory, Some(scratches[i].metadata))
  {
    [Item(socket, Socket, None), Item(Capacity(socket), RegularFile, None)]
    + seq(|scratches|,
      i requires 0 <= i < |scratches| => Item(scratches[i].path, Directory, Some(scratches[i].metadata)))
  }

  function PlanItem(t: Tree, boot: nat, item: Item): Result<Entry, Refusal> {
    match Metadata(t, item.source, item.kind)
    case Err(e) => Err(e)
    case Ok(current) =>
      if item.kind == Directory && current != item.retained then Err(IdentityChanged)
      else if TargetOf(boot, item.source) in t then Err(TargetExists)
      else Ok(Entry(item.source, item.kind, current, TargetOf(boot, item.source)))
  }

  function PlanItems(t: Tree, boot: nat, items: seq<Item>): Result<seq<Entry>, Refusal> {
    if items == [] then Ok([])
    else
      match PlanItems(t, boot, items[..|items| - 1])
      case Err(e) => Err(e)
      case Ok(front) =>
        match PlanItem(t, boot, items[|items| - 1])
        case Err(e) => Err(e)
        case Ok(entry) => Ok(front + [entry])
  }

  function MakePlan(t: Tree, socket: Path, j: Journal): Result<seq<Entry>, Refusal> {
    PlanItems(t, j.identity.boot, Items(socket, j.scratches))
  }

  /** A stored entry is accepted only when it is the one the configuration and the journal determine. */
  function BindingError(e: Entry, item: Item, boot: nat): Option<Refusal> {
    if e.source != item.source || e.kind != item.kind || e.target != TargetOf(boot, item.source) then
      Some(BindingDiffers)
    else if e.kind == Directory && e.metadata != item.retained then Some(ScratchBindingDiffers)
    else None
  }

  /** The plan carries the bindings that the configuration and the journal determine. */
  ghost predicate Bound(plan: seq<Entry>, items: seq<Item>, boot: nat) {
    && |plan| == |items|
    && forall i :: 0 <= i < |plan| ==> BindingError(plan[i], items[i], boot).None?
  }

  // ----- one entry -----

  /** The disk states a piece of the program passes through, and how it ends. */
  datatype Trace = Trace(states: seq<State>, outcome: Outcome)

  function Last(d: State, states: seq<State>): State {
    if states == [] then d else states[|states| - 1]
  }

  /** From the moved artifact on: repeat the barrier, then recreate a directory or expect nothing. */
  function Settle(d: State, e: Entry, id: nat, present: Option<nat>, execute: bool): Trace {
    var synced := Synced(d, Parent(e.source));
    var barrier := if execute then [synced] else [];
    var d1 := Last(d, barrier);
    if e.kind == Directory then
      if present.Some? && (present == Some(id) || Occupied(d1.live, e.source)) then
        Trace(barrier, Refused(ReplacementOccupied))
      else if !execute then Trace(barrier, Done)
      else
        var made := if present.None? then [MadeDirectory(d1, e.source)] else [];
        var d2 := Last(d1, made);
        var inner := Synced(d2, e.source);
        Trace(barrier + made + [inner, Synced(inner, Parent(e.source))], Done)
    else if present.Some? then Trace(barrier, Refused(ArtifactReappeared))
    else Trace(barrier, Done)
  }

  /** One plan entry in the dry pass or in the execute pass. */
  function ApplyEntry(d: State, e: Entry, execute: bool): Trace {
    match Metadata(d.live, e.source, e.kind)
    case Err(why) => Trace([], Refused(why))
    case Ok(present) =>
      match Metadata(d.live, e.target, e.kind)
      case Err(why) => Trace([], Refused(why))
      case Ok(quarantined) =>
        match e.metadata
        case None => if present.Some? || quarantined.Some? then Trace([], Refused(UnexpectedArtifact))
          else Trace([], Done)
        case Some(id) =>
          if present == Some(id) && quarantined.None? then
            if !execute then Trace([], Done)
            else
              var moved := Renamed(d, e.source, e.target);
              var rest := Settle(moved, e, id, None, true);
              Trace([moved] + rest.states, rest.outcome)
          else if quarantined != Some(id) then Trace([], Refused(IdentityDiffers))
          else Settle(d, e, id, present, execute)
  }

  /** The execute pass over a plan; it stops at the first refusal. */
  function Execute(d: State, plan: seq<Entry>): (r: Trace)
  {
    if plan == [] then Trace([], Done)
    else
      var front := Execute(d, plan[..|plan| - 1]);
      if front.outcome.Refused? then front
      else
        var last := ApplyEntry(Last(d, front.states), plan[|plan| - 1], true);
        Trace(front.states + last.states, last.outcome)
  }

  /** The dry pass: every binding and every entry is checked, in order, and nothing is changed. */
  function DryPass(d: State, plan: seq<Entry>, items: seq<Item>, boot: nat): Outcome
    requires |plan| == |items|
  {
    if plan == [] then Done
    else
      var front := DryPass(d, plan[..|plan| - 1], items[..|items| - 1], boot);
      if front.Refused? then front
      else
        var entry, item := plan[|plan| - 1], items[|items| - 1];
        match BindingError(entry, item, boot)
        case Some(why) => Refused(why)
        case None => ApplyEntry(d, entry, false).outcome
  }

  // ----- how a trace is put together -----

  lemma SyncedKeepsLive(d: State, dir: Path)
    ensures Synced(d, dir).live == d.live
  {
  }

  lemma ExecuteNext(d: State, plan: seq<Entry>, k: nat)
    requires k < |plan|
    ensures
      var front := Execute(d, plan[..k]);
      front.outcome == Done ==>
        var last := ApplyEntry(Last(d, front.states), plan[k], true);
        && Execute(d, plan[..k + 1]) == Trace(front.states + last.states, last.outcome)
        && Last(d, front.states + last.states) == Last(Last(d, front.states), last.states)
  {
    hide ApplyEntry;
    assert plan[..k + 1][..k] == plan[..k];
  }

  lemma ExecuteNothing(d: State, plan: seq<Entry>)
    ensures Execute(d, plan[..0]) == Trace([], Done) && Last(d, []) == d
  {
  }

  // ----- the three operations -----

  /** The scratch paths of the journal are those of the configuration, in order. */
  predicate SameScratches(j: Journal, c: Config) {
    |j.scratches| == |c.scratches| && forall i :: 0 <= i < |j.scratches| ==> j.scratches[i].path == c.scratches[i]
  }

  function RunPlan(d: State, c: Config, j: Journal, plan: seq<Entry>): Trace {
    if |plan| != |c.scratches| + 2 || |j.scratches| != |c.scratches| then Trace([], Refused(InvalidPlan))
    else
      var checked := DryPass(d, plan, Items(c.socket, j.scratches), j.identity.boot);
      if checked.Refused? then Trace([], checked) else Execute(d, plan)
  }

  function JournalWritten(d: State, j: Journal): seq<State> {
    [JournalReplaced(d, j), Synced(JournalReplaced(d, j), d.home)]
  }

  /** The checks of `prepare` before it looks at an unfinished service's artifacts. */
  function PrepareRefusal(j: Journal, c: Config, identity: Identity): Option<Refusal> {
    if j.identity.platform != identity.platform || j.identity.host != identity.host then Some(OtherHost)
    else if j.phase == Clean then None
    else if j.identity.boot == identity.boot then Some(UnfinishedInCurrentBoot)
    else if j.config != c.digest || !SameScratches(j, c) then Some(ConfigurationChanged)
    else None
  }

  function Prepare(d: State, c: Config, identity: Identity): Trace {
    match d.journal
    case None => Trace([], if NoSocketArtifacts(d.live, c.socket) then Done else Refused(RetainedSocket))
    case Some(j) =>
      var refusal := PrepareRefusal(j, c, identity);
      if refusal.Some? then Trace([], Refused(refusal.value))
      else if j.phase == Clean then
        Trace([], if j.plan.Some? then Refused(PendingInCleanJournal)
                  else if !NoSocketArtifacts(d.live, c.socket) then Refused(RetainedSocket)
                  else if !ScratchesClean(d.live, j.scratches) then Refused(ScratchNotClean)
                  else Done)
      else
        match j.plan
        case Some(plan) => RunPlan(d, c, j, plan)
        case None =>
          match MakePlan(d.live, c.socket, j)
          case Err(why) => Trace([], Refused(why))
          case Ok(plan) =>
            var written := JournalWritten(d, j.(plan := Some(plan)));
            var rest := RunPlan(Last(d, written), c, j, plan);
            Trace(written + rest.states, rest.outcome)
  }

  /** The records `begin` takes of the scratch directories. */
  function Recorded(t: Tree, scratches: seq<Path>): Result<seq<ScratchRecord>, Refusal> {
    if scratches == [] then Ok([])
    else
      match Recorded(t, scratches[..|scratches| - 1])
      case Err(why) => Err(why)
      case Ok(front) =>
        var p := scratches[|scratches| - 1];
        if !PrivateDirectory(t, p) then Err(ScratchUnsafe)
        else if Occupied(t, p) then Err(ScratchNotEmpty)
        else Ok(front + [ScratchRecord(p, t[p].id)])
  }

  function Begin(d: State, c: Config, identity: Identity): Trace {
    if !NoSocketArtifacts(d.live, c.socket) then Trace([], Refused(RetainedSocket))
    else
      match Recorded(d.live, c.scratches)
      case Err(why) => Trace([], Refused(why))
      case Ok(records) => Trace(JournalWritten(d, Journal(c.digest, identity, Active, records, None)), Done)
  }

  function Finish(d: State, c: Config, j: Journal): Trace {
    if !NoSocketArtifacts(d.live, c.socket) then Trace([], Refused(RetainedSocket))
    else if !ScratchesClean(d.live, j.scratches) then Trace([], Refused(ScratchNotClean))
    else Trace(JournalWritten(d, j.(phase := Clean)), Done)
  }
}
