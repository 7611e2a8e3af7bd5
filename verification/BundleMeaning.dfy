/**
  What it means that a tree is the manifest's, said of the nodes that stand in the tree: each one is
  declared, each declared one is there.
*/
module BundleMeaning {
  import opened BundleTree

  /** `node` stands at `path` below these entries. */
  ghost predicate Reaches(entries: seq<Entry>, path: Path, node: Node)
    decreases |path|, 0
  {
    && path != []
    && exists e :: e in entries && e.name == path[0] && Leads(e.node, path[1..], node)
  }

  ghost predicate Leads(from: Node, rest: Path, node: Node)
    decreases |rest|, 1
  {
    if rest == [] then node == from else from.Directory? && Reaches(from.entries, rest, node)
  }

  /** A file of the manifest, by its path, size and digest. */
  ghost predicate DeclaredFile(records: seq<Record>, path: Path, node: Node) {
    node.File? && exists r :: r in records && r.path == path && r.size == node.size && r.digest == node.digest
  }

  /** A directory on the way to a file of the manifest. */
  ghost predicate NeededDirectory(records: seq<Record>, path: Path, node: Node) {
    node.Directory? && exists r :: r in records && 0 < |path| < |r.path| && r.path[..|path|] == path
  }

  /** Everything that stands in the tree is declared and sound. */
  ghost predicate NothingElse(entries: seq<Entry>, records: seq<Record>) {
    forall path, node :: Reaches(entries, path, node) ==>
      !node.Special? && node.sound && (DeclaredFile(records, path, node) || NeededDirectory(records, path, node))
  }

  /** Every file of the manifest stands in the tree. */
  ghost predicate AllThere(entries: seq<Entry>, records: seq<Record>) {
    forall r :: r in records ==> exists sound :: Reaches(entries, r.path, File(r.size, r.digest, sound))
  }

  lemma LeadsOn(from: Node, rest: Path, node: Node)
    ensures Leads(from, rest, node) <==>
            if rest == [] then node == from else from.Directory? && Reaches(from.entries, rest, node)
  {
  }

  // ----- one entry more -----

  lemma ReachesNext(front: seq<Entry>, last: Entry, path: Path, node: Node)
    ensures Reaches(front + [last], path, node) <==>
            Reaches(front, path, node) || (path != [] && last.name == path[0] && Leads(last.node, path[1..], node))
  {
    hide Leads;
    if path != [] && last.name == path[0] && Leads(last.node, path[1..], node) {
      assert last in front + [last];
    }
  }

  /** `p` is a place below `prefix` where a file, or a directory, stands. */
  ghost predicate FileAt(entries: seq<Entry>, prefix: Path, r: Record) {
    && prefix <= r.path
    && exists sound :: Reaches(entries, r.path[|prefix|..], File(r.size, r.digest, sound))
  }

  ghost predicate DirectoryAt(entries: seq<Entry>, prefix: Path, p: Path) {
    prefix <= p && exists inside, sound :: Reaches(entries, p[|prefix|..], Directory(inside, sound))
  }

  ghost predicate AllSound(entries: seq<Entry>) {
    forall path, node :: Reaches(entries, path, node) ==> !node.Special? && node.sound
  }

  /** A place below an entry is a place below the prefix that continues with the entry's name. */
  lemma BelowEntry(prefix: Path, name: string, p: Path)
    ensures prefix + [name] <= p <==> prefix <= p && p[|prefix|..] != [] && p[|prefix|] == name
    ensures prefix + [name] <= p ==> p[|prefix|..][1..] == p[|prefix + [name]|..]
  {
    if prefix + [name] <= p {
      assert prefix == (prefix + [name])[..|prefix|];
      assert p[|prefix|] == (prefix + [name])[|prefix|];
    }
    if prefix <= p && p[|prefix|..] != [] && p[|prefix|] == name {
      assert p == prefix + [name] + p[|prefix| + 1..];
    }
  }

  lemma FileAtNext(front: seq<Entry>, last: Entry, prefix: Path, r: Record)
    ensures FileAt(front + [last], prefix, r) <==>
            || FileAt(front, prefix, r)
            || (last.node.File? && r == Record(prefix + [last.name], last.node.size, last.node.digest))
            || (last.node.Directory? && FileAt(last.node.entries, prefix + [last.name], r))
  {
    hide Reaches;
    BelowEntry(prefix, last.name, r.path);
    if prefix <= r.path {
      var rest := r.path[|prefix|..];
      forall sound
        ensures Reaches(front + [last], rest, File(r.size, r.digest, sound)) <==>
                || Reaches(front, rest, File(r.size, r.digest, sound))
                || (rest != [] && last.name == rest[0] && Leads(last.node, rest[1..], File(r.size, r.digest, sound)))
      {
        ReachesNext(front, last, rest, File(r.size, r.digest, sound));
      }
      if rest != [] {
        LeadsToFile(last.node, rest[1..], r);
        assert rest[1..] == [] && rest[0] == last.name ==> r.path == prefix + [last.name];
      }
    }
  }

  lemma LeadsToFile(from: Node, rest: Path, r: Record)
    ensures (exists sound :: Leads(from, rest, File(r.size, r.digest, sound))) <==>
            || (rest == [] && from.File? && from.size == r.size && from.digest == r.digest)
            || (from.Directory? && exists sound :: Reaches(from.entries, rest, File(r.size, r.digest, sound)))
  {
    hide Reaches;
    if rest == [] {
      forall sound
        ensures from.Directory? ==> !Reaches(from.entries, [], File(r.size, r.digest, sound))
      {
        NothingReached(from, File(r.size, r.digest, sound));
      }
      if from.File? && from.size == r.size && from.digest == r.digest {
        assert Leads(from, rest, File(r.size, r.digest, from.sound));
      }
    } else {
      assert forall sound :: Leads(from, rest, File(r.size, r.digest, sound)) <==>
        from.Directory? && Reaches(from.entries, rest, File(r.size, r.digest, sound));
    }
  }

  lemma NothingReached(from: Node, node: Node)
    ensures from.Directory? ==> !Reaches(from.entries, [], node)
  {
  }

  lemma DirectoryAtNext(front: seq<Entry>, last: Entry, prefix: Path, p: Path)
    ensures DirectoryAt(front + [last], prefix, p) <==>
            || DirectoryAt(front, prefix, p)
            || (last.node.Directory? && (p == prefix + [last.name]
                                         || DirectoryAt(last.node.entries, prefix + [last.name], p)))
  {
    hide Reaches;
    BelowEntry(prefix, last.name, p);
    if prefix <= p {
      var rest := p[|prefix|..];
      forall inside, sound
        ensures Reaches(front + [last], rest, Directory(inside, sound)) <==>
                || Reaches(front, rest, Directory(inside, sound))
                || (rest != [] && last.name == rest[0] && Leads(last.node, rest[1..], Directory(inside, sound)))
      {
        ReachesNext(front, last, rest, Directory(inside, sound));
      }
      if prefix + [last.name] <= p {
        assert rest[1..] == [] <==> p == prefix + [last.name];
      }
    }
  }

  lemma AllSoundNext(front: seq<Entry>, last: Entry)
    ensures AllSound(front + [last]) <==>
            && AllSound(front) && !last.node.Special? && last.node.sound
            && (last.node.Directory? ==> AllSound(last.node.entries))
  {
    hide Reaches;
    forall path, node
      ensures Reaches(front + [last], path, node) <==>
              Reaches(front, path, node) || (path != [] && last.name == path[0] && Leads(last.node, path[1..], node))
    {
      ReachesNext(front, last, path, node);
    }
    if AllSound(front + [last]) {
      assert [last.name][1..] == [];
      assert Reaches(front + [last], [last.name], last.node);
      if last.node.Directory? {
        forall path, node | Reaches(last.node.entries, path, node)
          ensures !node.Special? && node.sound
        {
          var longer := [last.name] + path;
          NothingReached(last.node, node);
          assert longer[1..] == path;
          assert Reaches(front + [last], longer, node);
        }
      }
    }
    if AllSound(front) && !last.node.Special? && last.node.sound
      && (last.node.Directory? ==> AllSound(last.node.entries)) {
      forall path, node | Reaches(front + [last], path, node)
        ensures !node.Special? && node.sound
      {
        if !Reaches(front, path, node) {
          LeadsOn(last.node, path[1..], node);
        }
      }
    }
  }

  lemma {:induction false} ListingsAreWhatStands(entries: seq<Entry>, prefix: Path)
    ensures forall r :: r in FilesOf(entries, prefix) <==> FileAt(entries, prefix, r)
    ensures forall p :: p in DirectoriesOf(entries, prefix) <==> DirectoryAt(entries, prefix, p)
    ensures Sound(entries) <==> AllSound(entries)
    decreases entries
  {
    hide FilesOf, DirectoriesOf, Sound, FileAt, DirectoryAt, AllSound;
    if entries == [] {
      NothingStands(prefix);
    } else {
      var front, last := entries[..|entries| - 1], entries[|entries| - 1];
      var name := prefix + [last.name];
      assert entries == front + [last];
      Unfold(entries, prefix);
      ListingsAreWhatStands(front, prefix);
      if last.node.Directory? {
        ListingsAreWhatStands(last.node.entries, name);
      }
      forall r
        ensures r in FilesOf(entries, prefix) <==> FileAt(entries, prefix, r)
      {
        FileAtNext(front, last, prefix, r);
      }
      forall p
        ensures p in DirectoriesOf(entries, prefix) <==> DirectoryAt(entries, prefix, p)
      {
        DirectoryAtNext(front, last, prefix, p);
      }
      AllSoundNext(front, last);
    }
  }

  lemma NothingStands(prefix: Path)
    ensures forall r :: r !in FilesOf([], prefix) && !FileAt([], prefix, r)
    ensures forall p :: p !in DirectoriesOf([], prefix) && !DirectoryAt([], prefix, p)
    ensures Sound([]) && AllSound([])
  {
  }

  // ----- exactly the manifest -----

  /**
    A tree is the manifest's exactly when everything that stands in it is sound and is a declared
    file or a directory on the way to one, and every declared file stands in it.
  */
  lemma ExactMeansDeclared(entries: seq<Entry>, records: seq<Record>)
    ensures Exact(entries, Declared(records)) <==> NothingElse(entries, records) && AllThere(entries, records)
  {
    hide FilesOf, DirectoriesOf, Sound, FileAt, DirectoryAt, AllSound, Reaches, Declared, IsParent, DeclaredFile,
      NeededDirectory;
    ListingsAreWhatStands(entries, []);
    DeclaredAre(records);
    PlacesAre(entries, records);
    if Exact(entries, Declared(records)) {
      StandingIsDeclared(entries, records);
    }
    if NothingElse(entries, records) && AllThere(entries, records) {
      DeclaredIsExact(entries, records);
    }
  }

  lemma DeclaredAre(records: seq<Record>)
    ensures forall r :: r in Declared(records) <==> r in records
  {
  }

  lemma PlacesAre(entries: seq<Entry>, records: seq<Record>)
    ensures forall r: Record :: FileAt(entries, [], r) <==>
              exists sound :: Reaches(entries, r.path, File(r.size, r.digest, sound))
    ensures forall p: Path :: DirectoryAt(entries, [], p) <==>
              exists inside, sound :: Reaches(entries, p, Directory(inside, sound))
    ensures forall p: Path :: p != [] ==> (IsParent(Declared(records), p) <==>
                                exists r :: r in records && 0 < |p| < |r.path| && r.path[..|p|] == p)
  {
    hide Reaches;
    forall p: Path
      ensures p[0..] == p && [] <= p
    {
    }
    forall p: Path
      ensures IsParent(Declared(records), p) <==>
              exists r :: r in records && 0 < |p| < |r.path| && r.path[..|p|] == p
    {
      if IsParent(Declared(records), p) {
        var r :| r in Declared(records) && ProperlyAbove(p, r.path);
        assert r in records && r.path[..|p|] == p;
      }
      if r :| r in records && 0 < |p| < |r.path| && r.path[..|p|] == p {
        assert r in Declared(records) && ProperlyAbove(p, r.path);
      }
    }
  }

  lemma StandingIsDeclared(entries: seq<Entry>, records: seq<Record>)
    requires Exact(entries, Declared(records))
    ensures NothingElse(entries, records) && AllThere(entries, records)
  {
    hide FilesOf, DirectoriesOf, Sound, FileAt, DirectoryAt, Reaches, Declared, IsParent;
    ListingsAreWhatStands(entries, []);
    DeclaredAre(records);
    PlacesAre(entries, records);
    forall path, node | Reaches(entries, path, node)
      ensures !node.Special? && node.sound
      ensures DeclaredFile(records, path, node) || NeededDirectory(records, path, node)
    {
      SomewherePath(entries, path, node);
      match node {
        case File(size, digest, sound) => assert FileAt(entries, [], Record(path, size, digest));
        case Directory(inside, sound) => assert DirectoryAt(entries, [], path);
        case Special =>
      }
    }
    forall r | r in records
      ensures exists sound :: Reaches(entries, r.path, File(r.size, r.digest, sound))
    {
      assert FileAt(entries, [], r);
    }
  }

  lemma SomewherePath(entries: seq<Entry>, path: Path, node: Node)
    requires Reaches(entries, path, node)
    ensures path != []
  {
  }

  lemma DeclaredIsExact(entries: seq<Entry>, records: seq<Record>)
    requires NothingElse(entries, records) && AllThere(entries, records)
    ensures Exact(entries, Declared(records))
  {
    hide FilesOf, DirectoriesOf, Sound, FileAt, DirectoryAt, Reaches, Declared, IsParent;
    ListingsAreWhatStands(entries, []);
    DeclaredAre(records);
    PlacesAre(entries, records);
    forall r
      ensures r in FilesOf(entries, []) <==> r in Declared(records)
    {
      if r in FilesOf(entries, []) {
        var sound :| Reaches(entries, r.path, File(r.size, r.digest, sound));
        assert DeclaredFile(records, r.path, File(r.size, r.digest, sound));
      }
    }
    forall p | p in DirectoriesOf(entries, [])
      ensures IsParent(Declared(records), p)
    {
      var inside, sound :| Reaches(entries, p, Directory(inside, sound));
      SomewherePath(entries, p, Directory(inside, sound));
      assert NeededDirectory(records, p, Directory(inside, sound));
    }
  }

  /** `p` is `q` or lies above it, component by component and without regard to case. */
  predicate Clash(fold: string -> string, p: Path, q: Path) {
    |p| <= |q| && (p == [] ==> q == []) && forall m :: 0 <= m < |p| ==> fold(p[m]) == fold(q[m])
  }

  lemma ClashesAreFolded(fold: string -> string, p: Path, q: Path)
    ensures Clash(fold, p, q) <==> Folded(fold, p) == Folded(fold, q) || ProperlyAbove(Folded(fold, p), Folded(fold, q))
  {
    var a, b := Folded(fold, p), Folded(fold, q);
    if Clash(fold, p, q) {
      assert a == b[..|a|];
    }
    if a == b || ProperlyAbove(a, b) {
      forall m | 0 <= m < |p|
        ensures fold(p[m]) == fold(q[m])
      {
        assert a[m] == b[m];
      }
    }
  }

  /**
    The records that are accepted: 1 to 512 files of at most 4 GiB together, none at or above
    another without regard to case.
  */
  lemma AcceptableExactly(records: seq<Record>, fold: string -> string)
    ensures Acceptable(records, fold) <==>
            && 1 <= |records| <= 512 && Total(records) <= 0x1_0000_0000
            && forall i, k :: 0 <= i < |records| && 0 <= k < |records| && i != k ==>
                 !Clash(fold, records[i].path, records[k].path)
  {
    hide Folded, Clash, ProperlyAbove;
    forall i | 0 <= i < |records|
      ensures records[i].size <= Total(records)
    {
      PartOfTotal(records, i);
    }
    forall i, k | 0 <= i < |records| && 0 <= k < |records|
      ensures Clash(fold, records[i].path, records[k].path) <==>
              || Folded(fold, records[i].path) == Folded(fold, records[k].path)
              || ProperlyAbove(Folded(fold, records[i].path), Folded(fold, records[k].path))
    {
      ClashesAreFolded(fold, records[i].path, records[k].path);
    }
    forall p: Path
      ensures !ProperlyAbove(p, p)
    {
      NotAboveItself(p);
    }
  }

  lemma NotAboveItself(p: Path)
    ensures !ProperlyAbove(p, p)
  {
  }

  lemma {:induction false} PartOfTotal(records: seq<Record>, i: nat)
    requires i < |records|
    ensures records[i].size <= Total(records)
  {
    if i < |records| - 1 {
      PartOfTotal(records[..|records| - 1], i);
    }
  }
}
