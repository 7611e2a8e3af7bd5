/**
  The part of a file system that recovery touches. An artifact is one object with an identity;
  what lies inside a directory is part of the object, so renaming a directory moves it whole.

  Directory operations take effect at once for the running system but survive a crash for certain
  only after their directory has been synced: a crash keeps any selection of the unsynced ones.
*/
module Disk {
  import opened Outcomes
  import opened RecoveryJournal

  /** `private` stands for the owner, mode and link-count checks on one object. */
  datatype Object = Object(kind: Kind, id: nat, private: bool, contents: set<string>)

  type Tree = map<Path, Object>

  datatype Op = Rename(source: Path, target: Path) | MakeDirectory(path: Path, id: nat)

  /** The directory whose entries an operation changes. */
  function Home(op: Op): Path {
    match op
    case Rename(source, _) => Parent(source)
    case MakeDirectory(path, _) => Parent(path)
  }

  function FreshDirectory(id: nat): Object {
    Object(Directory, id, true, {})
  }

  function Perform(t: Tree, op: Op): Tree {
    match op
    case Rename(source, target) => if source in t then (t - {source})[target := t[source]] else t
    case MakeDirectory(path, id) => t[path := FreshDirectory(id)]
  }

  function PerformAll(t: Tree, ops: seq<Op>): Tree {
    if ops == [] then t else Perform(PerformAll(t, ops[..|ops| - 1]), ops[|ops| - 1])
  }

  /** The operations in one directory, or all the others. */
  function Within(ops: seq<Op>, dir: Path, inside: bool): seq<Op> {
    if ops == [] then []
    else
      var front := Within(ops[..|ops| - 1], dir, inside);
      if (Home(ops[|ops| - 1]) == dir) == inside then front + [ops[|ops| - 1]] else front
  }

  lemma {:induction false} WithinIsByHome(ops: seq<Op>, dir: Path)
    ensures forall op :: op in Within(ops, dir, true) <==> op in ops && Home(op) == dir
    ensures forall op :: op in Within(ops, dir, false) <==> op in ops && Home(op) != dir
    ensures (forall op :: op in ops ==> Home(op) == dir) ==>
              Within(ops, dir, true) == ops && Within(ops, dir, false) == []
  {
    if ops != [] {
      var front, last := ops[..|ops| - 1], ops[|ops| - 1];
      assert ops == front + [last];
      WithinIsByHome(front, dir);
    }
  }

  /** A selection of unsynced operations, in order. */
  ghost predicate Selection(kept: seq<Op>, ops: seq<Op>) {
    if ops == [] then kept == []
    else
      || Selection(kept, ops[..|ops| - 1])
      || (kept != [] && kept[|kept| - 1] == ops[|ops| - 1] && Selection(kept[..|kept| - 1], ops[..|ops| - 1]))
  }

  /**
    `live` and `journal` are what system calls see. `durable` and `durableJournal` are what every
    crash keeps. The journal is one file in `home`, replaced as a whole.
  */
  datatype State = State(
    live: Tree, durable: Tree, pending: seq<Op>,
    journal: Option<Journal>, durableJournal: Option<Journal>, home: Path, nextId: nat)

  function Renamed(d: State, source: Path, target: Path): State {
    d.(live := Perform(d.live, Rename(source, target)), pending := d.pending + [Rename(source, target)])
  }

  function MadeDirectory(d: State, path: Path): State {
    d.(live := Perform(d.live, MakeDirectory(path, d.nextId)),
    pending := d.pending + [MakeDirectory(path, d.nextId)], nextId := d.nextId + 1)
  }

  function JournalReplaced(d: State, j: Journal): State {
    d.(journal := Some(j))
  }

  /** What syncing one directory makes durable. */
  function Synced(d: State, dir: Path): State {
    d.(durable := PerformAll(d.durable, Within(d.pending, dir, true)),
    pending := Within(d.pending, dir, false),
    durableJournal := if dir == d.home then d.journal else d.durableJournal)
  }

  /** A sync keeps what the running system sees, and leaves unsynced exactly what lies in other directories. */
  lemma SyncedIsByDirectory(d: State, dir: Path)
    ensures
      var after := Synced(d, dir);
      && after.live == d.live && after.journal == d.journal && after.home == d.home && after.nextId == d.nextId
      && after.durableJournal == (if dir == d.home then d.journal else d.durableJournal)
      && (forall op :: op in after.pending <==> op in d.pending && Home(op) != dir)
      && ((forall op :: op in d.pending ==> Home(op) == dir) ==>
            after.pending == [] && after.durable == PerformAll(d.durable, d.pending))
  {
    WithinIsByHome(d.pending, dir);
  }

  /** A machine crash keeps any selection of unsynced operations, and either journal. */
  ghost predicate CrashesTo(d: State, after: State) {
    && (exists kept :: Selection(kept, d.pending) && after.live == PerformAll(d.durable, kept))
    && after.durable == after.live && after.pending == []
    && (after.journal == d.journal || after.journal == d.durableJournal)
    && after.durableJournal == after.journal
    && after.home == d.home && after.nextId == d.nextId
  }

  /**
    The running file system. `history` records the state after every operation, so a statement
    about all of `history` is a statement about every point at which the program may stop.
  */
  class FileSystem {
    var state: State
    ghost var history: seq<State>

    constructor (state: State)
      ensures this.state == state && history == []
    {
      this.state := state;
      history := [];
    }

    /** Moves one object. The target must be free, so nothing is ever overwritten. */
    method MoveObject(source: Path, target: Path)
      requires source in state.live && target !in state.live
      modifies this
      ensures state == Renamed(old(state), source, target)
      ensures state == old(state).(live := (old(state.live) - {source})[target := old(state.live)[source]],
                pending := old(state.pending) + [Rename(source, target)])
      ensures history == old(history) + [state]
    {
      state := Renamed(state, source, target);
      history := history + [state];
    }

    method CreateDirectory(path: Path)
      requires path !in state.live
      modifies this
      ensures state == MadeDirectory(old(state), path)
      ensures state.live == old(state.live)[path := Object(Directory, old(state.nextId), true, {})]
              && state.pending == old(state.pending) + [MakeDirectory(path, old(state.nextId))]
              && state.durable == old(state.durable) && state.nextId == old(state.nextId) + 1
      ensures history == old(history) + [state]
    {
      state := MadeDirectory(state, path);
      history := history + [state];
    }

    method SyncDirectory(dir: Path)
      modifies this
      ensures state == Synced(old(state), dir)
      ensures history == old(history) + [state]
    {
      state := Synced(state, dir);
      history := history + [state];
    }

    /** Work of others on the disk while the service is running. */
    method Become(after: State)
      modifies this
      ensures state == after
      ensures history == old(history) + [state]
    {
      state := after;
      history := history + [state];
    }

    method ReplaceJournal(j: Journal)
      modifies this
      ensures state == JournalReplaced(old(state), j) == old(state).(journal := Some(j))
      ensures history == old(history) + [state]
    {
      state := JournalReplaced(state, j);
      history := history + [state];
    }
  }
}
