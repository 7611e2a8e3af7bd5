/**
  Verification of an imported model bundle: the checks on the manifest's records, and the recursive
  walk that accepts exactly one directory tree for them, whatever order a directory is listed in.
*/
module BundleTree {

  const MAXIMUM_FILES := 512
  const MAXIMUM_BYTES := 4 * 1024 * 1024 * 1024

  /** A relative path by its components. */
  type Path = seq<string>

  /** `sound` stands for ownership, permissions, link count and not changing while being read. */
  datatype Node = File(size: nat, digest: int, sound: bool) | Directory(entries: seq<Entry>, sound: bool) | Special

  /** Directory entries, in whatever order they are listed. */
  datatype Entry = Entry(name: string, node: Node)

  datatype Record = Record(path: Path, size: nat, digest: int)

  // ----- what a tree contains -----

  function FilesOf(entries: seq<Entry>, prefix: Path): set<Record> {
    if entries == [] then {}
    else
      var last := entries[|entries| - 1];
      FilesOf(entries[..|entries| - 1], prefix)
      + match last.node
        case File(size, digest, _) => {Record(prefix + [last.name], size, digest)}
        case Directory(inside, _) => FilesOf(inside, prefix + [last.name])
        case Special => {}
  }

  function DirectoriesOf(entries: seq<Entry>, prefix: Path): set<Path> {
    if entries == [] then {}
    else
      var last := entries[|entries| - 1];
      DirectoriesOf(entries[..|entries| - 1], prefix)
      + match last.node
        case Directory(inside, _) => {prefix + [last.name]} + DirectoriesOf(inside, prefix + [last.name])
        case _ => {}
  }

  predicate Sound(entries: seq<Entry>) {
    entries == []
    || (Sound(entries[..|entries| - 1])
        && match entries[|entries| - 1].node
           case File(_, _, sound) => sound
           case Directory(inside, sound) => sound && Sound(inside)
           case Special => false)
  }

  /** A directory lists every name once. */
  predicate NamesOnce(entries: seq<Entry>) {
    entries == []
    || (var front, last := entries[..|entries| - 1], entries[|entries| - 1];
        && NamesOnce(front) && (forall i :: 0 <= i < |front| ==> front[i].name != last.name)
        && (last.node.Directory? ==> NamesOnce(last.node.entries)))
  }

  predicate ProperlyAbove(p: Path, q: Path) {
    0 < |p| < |q| && p == q[..|p|]
  }

  /** The directories above the declared files. */
  ghost predicate IsParent(files: set<Record>, p: Path) {
    exists r :: r in files && ProperlyAbove(p, r.path)
  }

  /** The tree is the manifest's: its files, the directories above them, and nothing else. */
  ghost predicate Exact(entries: seq<Entry>, files: set<Record>) {
    && Sound(entries) && FilesOf(entries, []) == files
    && forall p :: p in DirectoriesOf(entries, []) ==> IsParent(files, p)
  }

  // ----- the walk -----

  /** The paths of the files below. */
  function PathsOf(entries: seq<Entry>, prefix: Path): set<Path> {
    set r | r in FilesOf(entries, prefix) :: r.path
  }

  class Walker {
    const files: map<Path, Record>
    const directories: set<Path>
    var seen: set<Path>

    constructor (files: map<Path, Record>, directories: set<Path>)
      ensures this.files == files && this.directories == directories && seen == {}
    {
      this.files, this.directories, this.seen := files, directories, {};
    }

    /** Everything below is declared. */
    predicate AllDeclared(entries: seq<Entry>, prefix: Path) {
      && Sound(entries)
      && (forall r :: r in FilesOf(entries, prefix) ==> r.path in files && files[r.path] == r)
      && (forall p :: p in DirectoriesOf(entries, prefix) ==> p in directories)
    }

    predicate EntryDeclared(node: Node, name: Path) {
      match node
      case File(size, digest, sound) => sound && name in files && files[name].size == size
        && files[name].digest == digest
      case Directory(entries, sound) => sound && name in directories && AllDeclared(entries, name)
      case Special => false
    }

    method Walk(entries: seq<Entry>, prefix: Path) returns (ok: bool)
      requires forall p :: p in files ==> files[p].path == p
      modifies this
      ensures ok <==> AllDeclared(entries, prefix)
      ensures ok ==> seen == old(seen) + PathsOf(entries, prefix)
      decreases entries
    {
      hide AllDeclared, PathsOf;
      ghost var before := seen;
      NothingListed(prefix);
      for i := 0 to |entries|
        invariant AllDeclared(entries[..i], prefix)
        invariant seen == before + PathsOf(entries[..i], prefix)
      {
        OneMoreEntry(entries, prefix, i);
        var name, node := prefix + [entries[i].name], entries[i].node;
        var accepted := false;
        if name in directories && node.Directory? && node.sound {
          accepted := Walk(node.entries, name);
        } else if name in files && node.File? {
          accepted := node.sound && node.size == files[name].size && node.digest == files[name].digest;
          seen := seen + {name};
        }
        if !accepted {
          NotDeclared(entries, prefix, i);
          return false;
        }
      }
      assert entries[..|entries|] == entries;
      return true;
    }

    lemma NothingListed(prefix: Path)
      ensures AllDeclared([], prefix) && PathsOf([], prefix) == {}
    {
    }

    /** The listing one entry longer is declared if the entry is, and lists what the entry adds. */
    lemma OneMoreEntry(entries: seq<Entry>, prefix: Path, i: nat)
      requires i < |entries| && forall p :: p in files ==> files[p].path == p
      ensures
        var name, node := prefix + [entries[i].name], entries[i].node;
        && (AllDeclared(entries[..i + 1], prefix) <==> AllDeclared(entries[..i], prefix) && EntryDeclared(node, name))
        && PathsOf(entries[..i + 1], prefix) == PathsOf(entries[..i], prefix)
           + (if node.File? then {name} else if node.Directory? then PathsOf(node.entries, name) else {})
    {
      hide FilesOf, DirectoriesOf, Sound;
      assert entries[..i + 1][..i] == entries[..i];
      Unfold(entries[..i + 1], prefix);
    }

    lemma NotDeclared(entries: seq<Entry>, prefix: Path, i: nat)
      requires i < |entries| && !AllDeclared(entries[..i + 1], prefix)
      ensures !AllDeclared(entries, prefix)
    {
      hide FilesOf, DirectoriesOf, Sound;
      Shorter(entries, prefix, i + 1);
    }
  }

  lemma Unfold(entries: seq<Entry>, prefix: Path)
    requires entries != []
    ensures
      var front, last := entries[..|entries| - 1], entries[|entries| - 1];
      var name := prefix + [last.name];
      && FilesOf(entries, prefix) == FilesOf(front, prefix)
         + (if last.node.File? then {Record(name, last.node.size, last.node.digest)}
            else if last.node.Directory? then FilesOf(last.node.entries, name) else {})
      && DirectoriesOf(entries, prefix) == DirectoriesOf(front, prefix)
         + (if last.node.Directory? then {name} + DirectoriesOf(last.node.entries, name) else {})
      && (Sound(entries) <==> Sound(front) && !last.node.Special? && last.node.sound
                              && (last.node.Directory? ==> Sound(last.node.entries)))
  {
  }

  /** A shorter listing contains less. */
  lemma {:induction false} Shorter(entries: seq<Entry>, prefix: Path, k: nat)
    requires k <= |entries|
    ensures Sound(entries) ==> Sound(entries[..k])
    ensures FilesOf(entries[..k], prefix) <= FilesOf(entries, prefix)
    ensures DirectoriesOf(entries[..k], prefix) <= DirectoriesOf(entries, prefix)
  {
    if k == |entries| {
      assert entries[..k] == entries;
    } else {
      var front := entries[..|entries| - 1];
      Shorter(front, prefix, k);
      assert front[..k] == entries[..k];
    }
  }

  // ----- the records of a manifest -----

  /** The sum of the declared sizes. */
  function Total(records: seq<Record>): nat {
    if records == [] then 0 else Total(records[..|records| - 1]) + records[|records| - 1].size
  }

  /** Paths compare without regard to case: `fold` is the case folding of a component. */
  function Folded(fold: string -> string, p: Path): (r: Path)
    ensures |r| == |p| && forall i :: 0 <= i < |p| ==> r[i] == fold(p[i])
  {
    seq(|p|, i requires 0 <= i < |p| => fold(p[i]))
  }

  /** Bounded, without aliases, and with no file where another record needs a directory. */
  ghost predicate Acceptable(records: seq<Record>, fold: string -> string) {
    && 1 <= |records| <= MAXIMUM_FILES && Total(records) <= MAXIMUM_BYTES
    && (forall i :: 0 <= i < |records| ==> records[i].size <= MAXIMUM_BYTES)
    && (forall i, k :: 0 <= i < k < |records| ==> Folded(fold, records[i].path) != Folded(fold, records[k].path))
    && (forall i, k :: 0 <= i < |records| && 0 <= k < |records| ==>
          !ProperlyAbove(Folded(fold, records[i].path), Folded(fold, records[k].path)))
  }

  function FoldedPaths(fold: string -> string, records: seq<Record>): set<Path> {
    set k | 0 <= k < |records| :: Folded(fold, records[k].path)
  }

  lemma NoFoldedPaths(fold: string -> string)
    ensures FoldedPaths(fold, []) == {}
  {
  }

  lemma FoldedNext(fold: string -> string, records: seq<Record>, i: nat)
    requires i < |records|
    ensures FoldedPaths(fold, records[..i + 1]) == FoldedPaths(fold, records[..i]) + {Folded(fold, records[i].path)}
    ensures Folded(fold, records[i].path) in FoldedPaths(fold, records[..i]) <==>
            exists k :: 0 <= k < i && Folded(fold, records[k].path) == Folded(fold, records[i].path)
  {
    hide Folded;
    assert forall k :: 0 <= k < i ==> records[..i][k] == records[k] == records[..i + 1][k];
    assert records[..i + 1][i] == records[i];
  }

  method CheckRecords(records: seq<Record>, fold: string -> string) returns (ok: bool)
    ensures ok <==> Acceptable(records, fold)
  {
    hide Folded, ProperlyAbove, FoldedPaths;
    if !(1 <= |records| <= MAXIMUM_FILES) {
      return false;
    }
    var total := 0;
    for i := 0 to |records|
      invariant total == Total(records[..i])
      invariant forall k :: 0 <= k < i ==> records[k].size <= MAXIMUM_BYTES
    {
      assert records[..i + 1][..i] == records[..i];
      if records[i].size > MAXIMUM_BYTES {
        return false;
      }
      total := total + records[i].size;
    }
    assert records[..|records|] == records;
    if total > MAXIMUM_BYTES {
      return false;
    }
    var names := {};
    NoFoldedPaths(fold);
    assert records[..0] == [];
    for i := 0 to |records|
      invariant names == FoldedPaths(fold, records[..i])
      invariant forall m, k :: 0 <= m < k < i ==> Folded(fold, records[m].path) != Folded(fold, records[k].path)
    {
      var name := Folded(fold, records[i].path);
      FoldedNext(fold, records, i);
      if name in names {
        return false;
      }
      names := names + {name};
    }
    for k := 0 to |records|
      invariant forall i, l :: 0 <= i < |records| && 0 <= l < k ==>
                  !ProperlyAbove(Folded(fold, records[i].path), Folded(fold, records[l].path))
    {
      for i := 0 to |records|
        invariant forall m :: 0 <= m < i ==>
                  !ProperlyAbove(Folded(fold, records[m].path), Folded(fold, records[k].path))
      {
        if ProperlyAbove(Folded(fold, records[i].path), Folded(fold, records[k].path)) {
          return false;
        }
      }
    }
    return true;
  }

  /** Without regard to case there is no conflict, so there is none with regard to it either. */
  lemma NoConflicts(records: seq<Record>, fold: string -> string, i: nat, k: nat)
    requires Acceptable(records, fold) && i < |records| && k < |records|
    ensures !ProperlyAbove(records[i].path, records[k].path)
    ensures i != k ==> records[i].path != records[k].path
  {
    var p, q := records[i].path, records[k].path;
    assert i < k ==> Folded(fold, p) != Folded(fold, q);
    assert k < i ==> Folded(fold, q) != Folded(fold, p);
  }

  function Declared(records: seq<Record>): set<Record> {
    set r | r in records
  }

  function Parents(p: Path): set<Path> {
    set k | 0 < k < |p| :: p[..k]
  }

  /** The whole verification of a listed tree against acceptable records. */
  method VerifyTree(entries: seq<Entry>, records: seq<Record>, fold: string -> string) returns (ok: bool)
    requires Acceptable(records, fold)
    ensures ok <==> Exact(entries, Declared(records))
  {
    hide Acceptable, FilesOf, DirectoriesOf, Sound;
    var files: map<Path, Record> := map[];
    var directories: set<Path> := {};
    for i := 0 to |records|
      invariant forall p :: p in files ==> files[p].path == p && files[p] in records[..i]
      invariant forall k :: 0 <= k < i ==> records[k].path in files && files[records[k].path] == records[k]
      invariant forall p :: p in directories <==> exists k :: 0 <= k < i && p in Parents(records[k].path)
    {
      forall k | 0 <= k < i
        ensures records[k].path != records[i].path
      {
        NoConflicts(records, fold, k, i);
      }
      files := files[records[i].path := records[i]];
      directories := directories + Parents(records[i].path);
    }
    var walker := new Walker(files, directories);
    var declared := walker.Walk(entries, []);
    ok := declared && walker.seen == files.Keys;
    WalkMeansExact(entries, records, files, directories, walker);
    if declared {
      assert walker.seen == set r | r in FilesOf(entries, []) :: r.path;
    }
  }

  lemma WalkMeansExact(entries: seq<Entry>, records: seq<Record>, files: map<Path, Record>, directories: set<Path>,
      walker: Walker)
    requires walker.files == files && walker.directories == directories
    requires forall p :: p in files ==> files[p].path == p && files[p] in records
    requires forall k :: 0 <= k < |records| ==> records[k].path in files && files[records[k].path] == records[k]
    requires forall p :: p in directories <==> exists k :: 0 <= k < |records| && p in Parents(records[k].path)
    ensures walker.AllDeclared(entries, []) <==>
              && Sound(entries) && FilesOf(entries, []) <= Declared(records)
              && forall p :: p in DirectoriesOf(entries, []) ==> IsParent(Declared(records), p)
  {
    hide FilesOf, DirectoriesOf, Sound;
    forall p
      ensures p in directories <==> IsParent(Declared(records), p)
    {
      if p in directories {
        var k :| 0 <= k < |records| && p in Parents(records[k].path);
        assert records[k] in Declared(records) && ProperlyAbove(p, records[k].path);
      }
      if IsParent(Declared(records), p) {
        var r :| r in Declared(records) && ProperlyAbove(p, r.path);
        var k :| 0 <= k < |records| && records[k] == r;
        assert p == r.path[..|p|] && p in Parents(records[k].path);
      }
    }
    forall r
      ensures r in Declared(records) <==> r.path in files && files[r.path] == r
    {
    }
  }

  // ----- exactly one tree -----

  /** Every file stands in listed directories. */
  lemma {:induction false} FilesStandInDirectories(entries: seq<Entry>, prefix: Path, r: Record, k: nat)
    requires r in FilesOf(entries, prefix) && |prefix| < k < |r.path|
    ensures r.path[..k] in DirectoriesOf(entries, prefix)
    decreases entries
  {
    FilesLieBelow(entries, prefix, r);
    var front, last := entries[..|entries| - 1], entries[|entries| - 1];
    var name := prefix + [last.name];
    if r in FilesOf(front, prefix) {
      FilesStandInDirectories(front, prefix, r, k);
    } else if last.node.Directory? {
      FilesLieBelow(last.node.entries, name, r);
      if k == |name| {
        assert r.path[..k] == name;
      } else {
        FilesStandInDirectories(last.node.entries, name, r, k);
      }
    }
  }

  lemma {:induction false} FilesLieBelow(entries: seq<Entry>, prefix: Path, r: Record)
    requires r in FilesOf(entries, prefix)
    ensures |prefix| < |r.path| && prefix == r.path[..|prefix|]
    decreases entries
  {
    var front, last := entries[..|entries| - 1], entries[|entries| - 1];
    var name := prefix + [last.name];
    if r in FilesOf(front, prefix) {
      FilesLieBelow(front, prefix, r);
    } else if last.node.Directory? {
      FilesLieBelow(last.node.entries, name, r);
      assert name == r.path[..|name|];
      assert prefix == name[..|prefix|];
    }
  }

  /** Two accepted trees hold the same files and the same directories: the manifest denotes one tree. */
  lemma AcceptedTreesAgree(a: seq<Entry>, b: seq<Entry>, files: set<Record>)
    requires Exact(a, files) && Exact(b, files)
    ensures FilesOf(a, []) == FilesOf(b, []) && DirectoriesOf(a, []) == DirectoriesOf(b, [])
    ensures forall p :: p in DirectoriesOf(a, []) <==> IsParent(files, p)
  {
    hide FilesOf, DirectoriesOf, Sound;
    forall p | IsParent(files, p)
      ensures p in DirectoriesOf(a, []) && p in DirectoriesOf(b, [])
    {
      var r :| r in files && ProperlyAbove(p, r.path);
      FilesStandInDirectories(a, [], r, |p|);
      FilesStandInDirectories(b, [], r, |p|);
    }
  }

  // ----- the tree exists -----

  function Placed(entries: seq<Entry>, p: Path, f: Node): seq<Entry>
    requires p != []
    decreases |p|, |entries|
  {
    if entries == [] then [Entry(p[0], if |p| == 1 then f else Directory(Placed([], p[1..], f), true))]
    else
      var front, last := entries[..|entries| - 1], entries[|entries| - 1];
      if last.name != p[0] then Placed(front, p, f) + [last]
      else if |p| > 1 && last.node.Directory? then
        front + [Entry(last.name, Directory(Placed(last.node.entries, p[1..], f), last.node.sound))]
      else entries
  }

  /** Nothing at this path, no file above it and no directory in its place. */
  ghost predicate Vacant(entries: seq<Entry>, prefix: Path, p: Path) {
    && prefix + p !in DirectoriesOf(entries, prefix)
    && forall r :: r in FilesOf(entries, prefix) ==> r.path != prefix + p && !ProperlyAbove(r.path, prefix + p)
  }

  lemma FileIsInTheWay(entries: seq<Entry>, prefix: Path, p: Path)
    requires entries != [] && p != [] && entries[|entries| - 1].name == p[0] && entries[|entries| - 1].node.File?
    ensures !Vacant(entries, prefix, p)
  {
    var last := entries[|entries| - 1];
    var r := Record(prefix + [last.name], last.node.size, last.node.digest);
    assert r in FilesOf(entries, prefix);
    if |p| == 1 {
      assert r.path == prefix + p;
    } else {
      assert r.path == (prefix + p)[..|r.path|];
    }
  }

  lemma DirectoryIsInTheWay(entries: seq<Entry>, prefix: Path, p: Path)
    requires entries != [] && |p| == 1 && entries[|entries| - 1].name == p[0] && entries[|entries| - 1].node.Directory?
    ensures !Vacant(entries, prefix, p)
  {
    assert p == [p[0]];
    assert prefix + p in DirectoriesOf(entries, prefix);
  }

  lemma FrontIsVacant(entries: seq<Entry>, prefix: Path, p: Path)
    requires entries != [] && Vacant(entries, prefix, p)
    ensures Vacant(entries[..|entries| - 1], prefix, p)
  {
    hide FilesOf, DirectoriesOf, Sound;
    Unfold(entries, prefix);
  }

  /** A vacant path that starts at a listed name goes on inside that directory. */
  lemma InsideIsVacant(entries: seq<Entry>, prefix: Path, p: Path)
    requires entries != [] && p != [] && Sound(entries) && Vacant(entries, prefix, p)
    requires entries[|entries| - 1].name == p[0]
    ensures
      var last := entries[|entries| - 1];
      |p| > 1 && last.node.Directory? && Vacant(last.node.entries, prefix + [p[0]], p[1..]) && Sound(last.node.entries)
  {
    hide FilesOf, DirectoriesOf, Sound;
    Unfold(entries, prefix);
    assert prefix + p == prefix + [p[0]] + p[1..];
    if entries[|entries| - 1].node.File? {
      FileIsInTheWay(entries, prefix, p);
    } else if |p| == 1 {
      DirectoryIsInTheWay(entries, prefix, p);
    }
  }

  function Names(entries: seq<Entry>): set<string> {
    set e | e in entries :: e.name
  }

  ghost predicate PlacedNames(entries: seq<Entry>, placed: seq<Entry>, name: string) {
    Sound(placed) && NamesOnce(placed) && Names(placed) <= Names(entries) + {name}
  }

  ghost predicate PlacedFiles(entries: seq<Entry>, placed: seq<Entry>, prefix: Path, r: Record) {
    FilesOf(placed, prefix) == FilesOf(entries, prefix) + {r}
  }

  ghost predicate PlacedDirectories(entries: seq<Entry>, placed: seq<Entry>, prefix: Path, p: Path) {
    forall d :: d in DirectoriesOf(placed, prefix) ==> d in DirectoriesOf(entries, prefix) || ProperlyAbove(d, p)
  }

  /** What placing one file is to achieve. */
  ghost predicate PlacedWell(entries: seq<Entry>, placed: seq<Entry>, prefix: Path, p: Path, size: nat, digest: int) {
    && p != [] && PlacedNames(entries, placed, p[0])
    && PlacedFiles(entries, placed, prefix, Record(prefix + p, size, digest))
    && PlacedDirectories(entries, placed, prefix, prefix + p)
  }

  lemma OneFile(prefix: Path, name: string, size: nat, digest: int)
    ensures PlacedWell([], [Entry(name, File(size, digest, true))], prefix, [name], size, digest)
  {
    var entries := [Entry(name, File(size, digest, true))];
    assert entries[..0] == [];
    Unfold(entries, prefix);
  }

  lemma NewDirectory(inside: seq<Entry>, prefix: Path, p: Path, size: nat, digest: int)
    requires |p| > 1 && PlacedWell([], inside, prefix + [p[0]], p[1..], size, digest)
    ensures PlacedWell([], [Entry(p[0], Directory(inside, true))], prefix, p, size, digest)
  {
    var entries := [Entry(p[0], Directory(inside, true))];
    assert entries[..0] == [];
    Unfold(entries, prefix);
    assert prefix + p == prefix + [p[0]] + p[1..];
    assert ProperlyAbove(prefix + [p[0]], prefix + p);
    assert DirectoriesOf([], prefix + [p[0]]) == {} && FilesOf([], prefix + [p[0]]) == {};
    hide FilesOf, DirectoriesOf;
    assert NamesOnce(entries);
  }

  lemma NamesBefore(front: seq<Entry>, last: Entry, placed: seq<Entry>, name: string)
    requires PlacedNames(front, placed, name) && last.name != name
    requires Sound(front + [last]) && NamesOnce(front + [last])
    ensures PlacedNames(front + [last], placed + [last], name)
  {
    hide FilesOf, DirectoriesOf, Sound, NamesOnce, Names;
    var entries, all := front + [last], placed + [last];
    assert entries[..|entries| - 1] == front && all[..|all| - 1] == placed;
    Unfold(entries, []);
    Unfold(all, []);
    NameIsNew(front, last);
    NamesStayOnce(placed, last);
    NamesNext(front, last);
    NamesNext(placed, last);
  }

  lemma FilesBefore(front: seq<Entry>, last: Entry, placed: seq<Entry>, prefix: Path, r: Record)
    requires PlacedFiles(front, placed, prefix, r)
    ensures PlacedFiles(front + [last], placed + [last], prefix, r)
  {
    hide FilesOf, DirectoriesOf, Sound;
    var entries, all := front + [last], placed + [last];
    assert entries[..|entries| - 1] == front && all[..|all| - 1] == placed;
    Unfold(entries, prefix);
    Unfold(all, prefix);
  }

  lemma DirectoriesBefore(front: seq<Entry>, last: Entry, placed: seq<Entry>, prefix: Path, p: Path)
    requires PlacedDirectories(front, placed, prefix, p)
    ensures PlacedDirectories(front + [last], placed + [last], prefix, p)
  {
    hide FilesOf, DirectoriesOf, Sound, ProperlyAbove;
    var entries, all := front + [last], placed + [last];
    assert entries[..|entries| - 1] == front && all[..|all| - 1] == placed;
    Unfold(entries, prefix);
    Unfold(all, prefix);
  }

  lemma PlacedBefore(front: seq<Entry>, last: Entry, placed: seq<Entry>, prefix: Path, p: Path, size: nat, digest: int)
    requires PlacedWell(front, placed, prefix, p, size, digest) && last.name != p[0]
    requires Sound(front + [last]) && NamesOnce(front + [last])
    ensures PlacedWell(front + [last], placed + [last], prefix, p, size, digest)
  {
    hide Sound, NamesOnce, PlacedNames, PlacedFiles, PlacedDirectories;
    NamesBefore(front, last, placed, p[0]);
    FilesBefore(front, last, placed, prefix, Record(prefix + p, size, digest));
    DirectoriesBefore(front, last, placed, prefix, prefix + p);
  }

  lemma NameIsNew(front: seq<Entry>, last: Entry)
    requires NamesOnce(front + [last])
    ensures last.name !in Names(front) && NamesOnce(front) && (last.node.Directory? ==> NamesOnce(last.node.entries))
  {
    var entries := front + [last];
    assert entries[..|entries| - 1] == front;
  }

  lemma NamesStayOnce(front: seq<Entry>, last: Entry)
    requires NamesOnce(front) && last.name !in Names(front) && (last.node.Directory? ==> NamesOnce(last.node.entries))
    ensures NamesOnce(front + [last])
  {
    var entries := front + [last];
    assert entries[..|entries| - 1] == front;
    forall i | 0 <= i < |front|
      ensures front[i].name != last.name
    {
      assert front[i] in front && front[i].name in Names(front);
    }
  }

  lemma PlacedInside(front: seq<Entry>, last: Entry, inside: seq<Entry>, prefix: Path, p: Path, size: nat, digest: int)
    requires |p| > 1 && last.name == p[0] && last.node.Directory?
    requires PlacedWell(last.node.entries, inside, prefix + [p[0]], p[1..], size, digest)
    requires Sound(front + [last]) && NamesOnce(front + [last])
    ensures PlacedWell(front + [last], front + [Entry(last.name, Directory(inside, last.node.sound))], prefix, p, size,
            digest)
  {
    hide FilesOf, DirectoriesOf, Sound, NamesOnce, Names, ProperlyAbove;
    var placed := Entry(last.name, Directory(inside, last.node.sound));
    var entries, all := front + [last], front + [placed];
    assert entries[..|entries| - 1] == front && all[..|all| - 1] == front;
    Unfold(entries, prefix);
    Unfold(all, prefix);
    assert prefix + p == prefix + [p[0]] + p[1..];
    NameIsNew(front, last);
    NamesStayOnce(front, placed);
    NamesNext(front, last);
    NamesNext(front, placed);
  }

  lemma NamesNext(front: seq<Entry>, last: Entry)
    ensures Names(front + [last]) == Names(front) + {last.name}
  {
  }

  lemma PlacedUnfolds(entries: seq<Entry>, p: Path, f: Node)
    requires p != []
    ensures entries == [] ==>
              Placed(entries, p, f) == [Entry(p[0], if |p| == 1 then f else Directory(Placed([], p[1..], f), true))]
    ensures entries != [] ==>
              var front, last := entries[..|entries| - 1], entries[|entries| - 1];
              && (last.name != p[0] ==> Placed(entries, p, f) == Placed(front, p, f) + [last])
              && (last.name == p[0] && |p| > 1 && last.node.Directory? ==>
                    Placed(entries, p, f) == front
                      + [Entry(last.name, Directory(Placed(last.node.entries, p[1..], f), last.node.sound))])
  {
  }

  /** Placing a file at a vacant path adds that file and the directories above it, and nothing else. */
  lemma {:induction false} PlacingAddsOneFile(entries: seq<Entry>, prefix: Path, p: Path, size: nat, digest: int)
    requires p != [] && Sound(entries) && NamesOnce(entries) && Vacant(entries, prefix, p)
    ensures PlacedWell(entries, Placed(entries, p, File(size, digest, true)), prefix, p, size, digest)
    decreases |p|, |entries|
  {
    hide Sound, NamesOnce, Vacant, PlacedWell, Placed, FilesOf, DirectoriesOf, Names;
    var f := File(size, digest, true);
    PlacedUnfolds(entries, p, f);
    if entries == [] {
      if |p| == 1 {
        assert p == [p[0]];
        OneFile(prefix, p[0], size, digest);
      } else {
        EmptyIsVacant(prefix + [p[0]], p[1..]);
        PlacingAddsOneFile([], prefix + [p[0]], p[1..], size, digest);
        NewDirectory(Placed([], p[1..], f), prefix, p, size, digest);
      }
    } else {
      var front, last := entries[..|entries| - 1], entries[|entries| - 1];
      assert entries == front + [last];
      NameIsNew(front, last);
      Unfold(entries, prefix);
      if last.name != p[0] {
        FrontIsVacant(entries, prefix, p);
        PlacingAddsOneFile(front, prefix, p, size, digest);
        PlacedBefore(front, last, Placed(front, p, f), prefix, p, size, digest);
      } else {
        InsideIsVacant(entries, prefix, p);
        PlacingAddsOneFile(last.node.entries, prefix + [p[0]], p[1..], size, digest);
        PlacedInside(front, last, Placed(last.node.entries, p[1..], f), prefix, p, size, digest);
      }
    }
  }

  lemma EmptyIsVacant(prefix: Path, p: Path)
    ensures Vacant([], prefix, p) && Sound([]) && NamesOnce([])
  {
  }

  /** The tree of a manifest. */
  function Built(records: seq<Record>): seq<Entry>
    requires forall r :: r in records ==> r.path != []
  {
    if records == [] then []
    else
      var last := records[|records| - 1];
      Placed(Built(records[..|records| - 1]), last.path, File(last.size, last.digest, true))
  }

  lemma {:induction false} BuiltIsExact(records: seq<Record>)
    requires forall r :: r in records ==> r.path != []
    requires forall i, k :: 0 <= i < |records| && 0 <= k < |records| ==>
               !ProperlyAbove(records[i].path, records[k].path) && (i != k ==> records[i].path != records[k].path)
    ensures Exact(Built(records), Declared(records)) && NamesOnce(Built(records))
  {
    if records == [] {
      assert Declared(records) == {};
    } else {
      hide Sound, NamesOnce, Placed, FilesOf, DirectoriesOf, Vacant, PlacedWell;
      var front, last := records[..|records| - 1], records[|records| - 1];
      assert forall i :: 0 <= i < |front| ==> front[i] == records[i];
      BuiltIsExact(front);
      LastIsVacant(records);
      PlacingAddsOneFile(Built(front), [], last.path, last.size, last.digest);
      assert records == front + [last];
      OneMoreRecord(Built(front), Built(records), front, last);
    }
  }

  lemma LastIsVacant(records: seq<Record>)
    requires records != [] && forall r :: r in records ==> r.path != []
    requires forall i, k :: 0 <= i < |records| && 0 <= k < |records| ==>
               !ProperlyAbove(records[i].path, records[k].path) && (i != k ==> records[i].path != records[k].path)
    requires Exact(Built(records[..|records| - 1]), Declared(records[..|records| - 1]))
    ensures Vacant(Built(records[..|records| - 1]), [], records[|records| - 1].path)
  {
    hide Sound, Placed, FilesOf, DirectoriesOf, ProperlyAbove;
    var front, last := records[..|records| - 1], records[|records| - 1];
    assert [] + last.path == last.path;
    forall r | r in Declared(front)
      ensures r.path != last.path && !ProperlyAbove(r.path, last.path) && !ProperlyAbove(last.path, r.path)
    {
      var i :| 0 <= i < |front| && front[i] == r;
      assert records[i] == r;
    }
  }

  lemma OneMoreRecord(before: seq<Entry>, after: seq<Entry>, front: seq<Record>, last: Record)
    requires Exact(before, Declared(front)) && PlacedWell(before, after, [], last.path, last.size, last.digest)
    ensures Exact(after, Declared(front + [last])) && NamesOnce(after)
  {
    hide Sound, FilesOf, DirectoriesOf;
    var all := Declared(front + [last]);
    assert [] + last.path == last.path && Record(last.path, last.size, last.digest) == last;
    assert all == Declared(front) + {last};
    forall d | d in DirectoriesOf(after, [])
      ensures IsParent(all, d)
    {
      if d in DirectoriesOf(before, []) {
        var r :| r in Declared(front) && ProperlyAbove(d, r.path);
        assert r in all;
      } else {
        assert last in all && ProperlyAbove(d, last.path);
      }
    }
  }

  /** Acceptable records always denote a tree: their own checks leave no conflict that could rule it out. */
  lemma AcceptableRecordsHaveATree(records: seq<Record>, fold: string -> string)
    requires Acceptable(records, fold) && forall r :: r in records ==> r.path != []
    ensures Exact(Built(records), Declared(records)) && NamesOnce(Built(records))
  {
    hide Acceptable, ProperlyAbove, NamesOnce, Built, Exact;
    forall i, k | 0 <= i < |records| && 0 <= k < |records|
      ensures !ProperlyAbove(records[i].path, records[k].path) && (i != k ==> records[i].path != records[k].path)
    {
      NoConflicts(records, fold, i, k);
    }
    BuiltIsExact(records);
  }

  /** Whereas a file above another one could never be matched. */
  lemma {:induction false} NoTreeWithAFileAboveAnother(entries: seq<Entry>, prefix: Path, a: Record, b: Record)
    requires NamesOnce(entries) && a in FilesOf(entries, prefix) && b in FilesOf(entries, prefix)
    ensures !ProperlyAbove(a.path, b.path)
    decreases entries
  {
    FilesLieBelow(entries, prefix, a);
    FilesLieBelow(entries, prefix, b);
    var front, last := entries[..|entries| - 1], entries[|entries| - 1];
    var name := prefix + [last.name];
    if a in FilesOf(front, prefix) && b in FilesOf(front, prefix) {
      NoTreeWithAFileAboveAnother(front, prefix, a, b);
    } else if a !in FilesOf(front, prefix) && b !in FilesOf(front, prefix) {
      if last.node.Directory? {
        NoTreeWithAFileAboveAnother(last.node.entries, name, a, b);
      }
    } else {
      FirstNames(entries, prefix, a, b);
    }
  }

  /** Files from differently named entries differ in the component below the prefix. */
  lemma FirstNames(entries: seq<Entry>, prefix: Path, a: Record, b: Record)
    requires entries != [] && NamesOnce(entries) && a in FilesOf(entries, prefix) && b in FilesOf(entries, prefix)
    requires (a in FilesOf(entries[..|entries| - 1], prefix)) != (b in FilesOf(entries[..|entries| - 1], prefix))
    ensures |a.path| > |prefix| && |b.path| > |prefix| && a.path[|prefix|] != b.path[|prefix|]
  {
    var front, last := entries[..|entries| - 1], entries[|entries| - 1];
    var c, d := if a in FilesOf(front, prefix) then a else b, if a in FilesOf(front, prefix) then b else a;
    NameOfFile(front, prefix, c);
    FilesLieBelow(entries, prefix, a);
    FilesLieBelow(entries, prefix, b);
    if last.node.Directory? {
      FilesLieBelow(last.node.entries, prefix + [last.name], d);
      assert d.path[|prefix|] == (prefix + [last.name])[|prefix|];
    }
    assert d.path[|prefix|] == last.name;
  }

  lemma {:induction false} NameOfFile(entries: seq<Entry>, prefix: Path, r: Record)
    requires r in FilesOf(entries, prefix)
    ensures |r.path| > |prefix| && exists i :: 0 <= i < |entries| && entries[i].name == r.path[|prefix|]
  {
    var front, last := entries[..|entries| - 1], entries[|entries| - 1];
    if r in FilesOf(front, prefix) {
      NameOfFile(front, prefix, r);
      var i :| 0 <= i < |front| && front[i].name == r.path[|prefix|];
      assert entries[i] == front[i];
    } else {
      if last.node.Directory? {
        FilesLieBelow(last.node.entries, prefix + [last.name], r);
        assert r.path[|prefix|] == (prefix + [last.name])[|prefix|];
      }
      assert entries[|entries| - 1].name == r.path[|prefix|];
    }
  }
}
