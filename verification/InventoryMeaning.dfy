/**
  What an inventory says, in terms of the trees: which node stands at which path of which root, what
  its record tells of it, and in which order the records stand.
*/
module InventoryMeaning {
  import opened RuntimeInventory
  import opened StableSort

  /** `node` stands in `tree` at `path`. */
  ghost predicate Stands(tree: Node, path: Path, node: Node)
    decreases |path|
  {
    if path == [] then node == tree
    else tree.Directory? && exists c :: c in tree.children && c.name == path[0] && Stands(c.node, path[1..], node)
  }

  /** `target` is the place `rest` of the root `q`. */
  predicate Leads(roots: Roots, target: Path, q: string, rest: Path) {
    q in roots && target == roots[q].base + rest
  }

  /** What a record tells of a node that can be listed. */
  ghost predicate Tells(roots: Roots, r: Record, node: Node) {
    && r.mode == node.mode
    && (node.File? ==> node.sound && r.kind == IsFile(node.digest, node.size))
    && (node.Directory? ==> node.sound && r.kind == IsDirectory)
    && (node.Link? ==> node.sound && r.kind.IsLink? && Leads(roots, node.target, r.kind.root, r.kind.path))
    && !node.Special?
  }

  /** A node that an inventory accepts. */
  ghost predicate CanBeListed(roots: Roots, node: Node) {
    if node.Special? then false
    else node.sound && (node.Link? ==> exists q, rest :: Leads(roots, node.target, q, rest))
  }

  // ----- records of nodes -----

  lemma {:induction false} MatchesLead(roots: Roots, target: Path, k: nat)
    requires AllRoots(roots) && k <= 3
    ensures forall e :: e in Matches(roots, target, k) ==> Leads(roots, target, e.0, e.1)
    ensures forall q, rest :: Leads(roots, target, q, rest) && (exists i :: 0 <= i < k && LABELS[i] == q) ==>
                                (q, rest) in Matches(roots, target, k)
  {
    if k != 0 {
      MatchesLead(roots, target, k - 1);
      var base := roots[LABELS[k - 1]].base;
      if RelativeTo(target, base) {
        assert target == base + target[|base|..];
      }
      forall q, rest | Leads(roots, target, q, rest) && LABELS[k - 1] == q
        ensures (q, rest) in Matches(roots, target, k)
      {
        assert target[|base|..] == rest && target[..|base|] == base;
      }
    }
  }

  lemma LinkLeads(roots: Roots, target: Path)
    requires AllRoots(roots) && Separate(roots)
    ensures
      var matches := Matches(roots, target, 3);
      && |matches| <= 1 && (|matches| == 1 ==> Leads(roots, target, matches[0].0, matches[0].1))
      && forall q, rest :: Leads(roots, target, q, rest) ==> matches == [(q, rest)]
  {
    hide Matches, Separate;
    LinksMatchOneRootAtMost(roots, target, 3);
    MatchesLead(roots, target, 3);
    var matches := Matches(roots, target, 3);
    forall q, rest | Leads(roots, target, q, rest)
      ensures matches == [(q, rest)]
    {
      assert LABELS[0] == q || LABELS[1] == q || LABELS[2] == q;
      assert (q, rest) in matches;
    }
  }

  /** A record is listable exactly for such a node, and then it is the one record that tells of it. */
  lemma RecordsTell(roots: Roots, name: string, path: Path, node: Node)
    requires AllRoots(roots) && Separate(roots)
    ensures
      var r := RecordOf(roots, name, path, node);
      && r.root == name && r.path == path && (r.kind != Unlistable <==> CanBeListed(roots, node))
      && (CanBeListed(roots, node) ==> Tells(roots, r, node))
    ensures forall r: Record :: r.root == name && r.path == path && Tells(roots, r, node) ==>
              r == RecordOf(roots, name, path, node)
  {
    hide Matches, Separate, AllRoots, Leads;
    if node.Link? {
      LinkLeads(roots, node.target);
    }
  }

  // ----- the records are those of the nodes -----

  /** A child of these, or what stands below one. */
  ghost predicate Found(children: seq<Child>, rest: Path, node: Node) {
    rest != [] && exists c :: c in children && c.name == rest[0] && Stands(c.node, rest[1..], node)
  }

  lemma FoundNext(front: seq<Child>, last: Child, rest: Path, node: Node)
    ensures Found(front + [last], rest, node) <==>
            Found(front, rest, node) || (rest != [] && last.name == rest[0] && Stands(last.node, rest[1..], node))
  {
    hide Stands;
    if rest != [] && last.name == rest[0] && Stands(last.node, rest[1..], node) {
      assert last in front + [last];
    }
  }

  lemma StandsBelow(tree: Node, rest: Path, node: Node)
    ensures Stands(tree, rest, node) <==>
            (rest == [] && node == tree) || (tree.Directory? && Found(tree.children, rest, node))
  {
  }

  /** `r` is the record of a node found among these children of `path`. */
  ghost predicate Recorded(roots: Roots, name: string, path: Path, children: seq<Child>, r: Record)
    requires forall i :: 0 <= i < 3 ==> LABELS[i] in roots
  {
    && path <= r.path
    && exists node :: Found(children, r.path[|path|..], node) && r == RecordOf(roots, name, r.path, node)
  }

  /** `r` is the record of a node that stands at or below `path`. */
  ghost predicate RecordedAt(roots: Roots, name: string, path: Path, tree: Node, r: Record)
    requires forall i :: 0 <= i < 3 ==> LABELS[i] in roots
  {
    && path <= r.path
    && exists node :: Stands(tree, r.path[|path|..], node) && r == RecordOf(roots, name, r.path, node)
  }

  lemma AtIsHereOrBelow(roots: Roots, name: string, path: Path, tree: Node, r: Record)
    requires forall i :: 0 <= i < 3 ==> LABELS[i] in roots
    ensures RecordedAt(roots, name, path, tree, r) <==>
            r == RecordOf(roots, name, path, tree)
            || (tree.Directory? && Recorded(roots, name, path, tree.children, r))
  {
    hide Stands, Found, KindOf;
    if path <= r.path {
      var rest := r.path[|path|..];
      assert rest == [] <==> r.path == path;
      forall node
        ensures Stands(tree, rest, node) <==>
                (rest == [] && node == tree) || (tree.Directory? && Found(tree.children, rest, node))
      {
        StandsBelow(tree, rest, node);
      }
    }
  }

  lemma LongerPrefix(path: Path, name: string, p: Path)
    ensures path + [name] <= p ==> path <= p
  {
    if path + [name] <= p {
      assert path == (path + [name])[..|path|];
    }
  }

  lemma RecordedNext(roots: Roots, name: string, path: Path, front: seq<Child>, last: Child, r: Record)
    requires forall i :: 0 <= i < 3 ==> LABELS[i] in roots
    ensures Recorded(roots, name, path, front + [last], r) <==>
            Recorded(roots, name, path, front, r) || RecordedAt(roots, name, path + [last.name], last.node, r)
  {
    hide Stands, Found, RecordOf;
    var here := path + [last.name];
    if path <= r.path {
      var rest := r.path[|path|..];
      assert here <= r.path <==> rest != [] && rest[0] == last.name by {
        assert r.path == path + rest;
      }
      assert here <= r.path ==> r.path[|here|..] == rest[1..];
      forall node
        ensures Found(front + [last], rest, node) <==>
                Found(front, rest, node) || (rest != [] && last.name == rest[0] && Stands(last.node, rest[1..], node))
      {
        FoundNext(front, last, rest, node);
      }
    } else {
      LongerPrefix(path, last.name, r.path);
    }
  }

  lemma {:induction false} BelowIsWhatStands(roots: Roots, name: string, path: Path, children: seq<Child>)
    requires forall i :: 0 <= i < 3 ==> LABELS[i] in roots
    ensures forall r :: r in Below(roots, name, path, children) <==> Recorded(roots, name, path, children, r)
    decreases children
  {
    hide Below, Recorded, RecordedAt, RecordOf;
    if children == [] {
      NothingBelow(roots, name, path);
      NothingRecorded(roots, name, path);
    } else {
      var front, last := children[..|children| - 1], children[|children| - 1];
      var here := path + [last.name];
      assert children == front + [last];
      BelowIsWhatStands(roots, name, path, front);
      if last.node.Directory? {
        BelowIsWhatStands(roots, name, here, last.node.children);
      } else {
        NothingBelow(roots, name, here);
      }
      BelowOne(roots, name, path, children);
      forall r
        ensures r in Below(roots, name, path, children) <==> Recorded(roots, name, path, children, r)
      {
        RecordedNext(roots, name, path, front, last, r);
        AtIsHereOrBelow(roots, name, here, last.node, r);
      }
    }
  }

  lemma NothingRecorded(roots: Roots, name: string, path: Path)
    requires forall i :: 0 <= i < 3 ==> LABELS[i] in roots
    ensures forall r :: !Recorded(roots, name, path, [], r)
  {
  }

  /** `r` is the record of a node of one of the roots. */
  ghost predicate TellsOfANode(roots: Roots, r: Record) {
    r.root in roots && exists node :: Stands(roots[r.root].tree, r.path, node) && Tells(roots, r, node)
  }

  ghost predicate RecordedIn(roots: Roots, k: nat, r: Record)
    requires k <= 3 && forall i :: 0 <= i < 3 ==> LABELS[i] in roots
  {
    exists i :: 0 <= i < k && RecordedAt(roots, LABELS[i], [], roots[LABELS[i]].tree, r)
  }

  lemma RecordsOfOneRoot(roots: Roots, name: string, tree: Node)
    requires forall i :: 0 <= i < 3 ==> LABELS[i] in roots
    ensures forall r :: r in Everything(roots, name, [], tree) <==> RecordedAt(roots, name, [], tree, r)
  {
    hide Below, Recorded, RecordedAt, RecordOf;
    if tree.Directory? {
      BelowIsWhatStands(roots, name, [], tree.children);
    }
    forall r
      ensures r in Everything(roots, name, [], tree) <==> RecordedAt(roots, name, [], tree, r)
    {
      AtIsHereOrBelow(roots, name, [], tree, r);
    }
  }

  lemma {:induction false} RecordsOfRoots(roots: Roots, k: nat)
    requires k <= 3 && forall i :: 0 <= i < 3 ==> LABELS[i] in roots
    ensures forall r :: r in AllRecords(roots, k) <==> RecordedIn(roots, k, r)
  {
    hide Everything, RecordedAt;
    if k != 0 {
      RecordsOfRoots(roots, k - 1);
      RecordsOfOneRoot(roots, LABELS[k - 1], roots[LABELS[k - 1]].tree);
    }
  }

  lemma RecordedInTree(roots: Roots, r: Record)
    requires AllRoots(roots)
    ensures RecordedIn(roots, 3, r) <==>
            r.root in roots && exists node :: Stands(roots[r.root].tree, r.path, node)
                                              && r == RecordOf(roots, r.root, r.path, node)
  {
    hide Stands, KindOf;
    assert r.path[0..] == r.path;
    assert r.root in roots ==> LABELS[0] == r.root || LABELS[1] == r.root || LABELS[2] == r.root;
  }

  /** Every node of the roots can be listed. */
  ghost predicate AllCanBeListed(roots: Roots) {
    forall name, path, node :: name in roots && Stands(roots[name].tree, path, node) ==> CanBeListed(roots, node)
  }

  ghost predicate AllListed(roots: Roots)
    requires forall i :: 0 <= i < 3 ==> LABELS[i] in roots
  {
    forall r :: r in AllRecords(roots, 3) ==> r.kind != Unlistable
  }

  lemma RecordOfANode(roots: Roots, name: string, path: Path, node: Node)
    requires AllRoots(roots) && Separate(roots) && name in roots && Stands(roots[name].tree, path, node)
    ensures RecordOf(roots, name, path, node) in AllRecords(roots, 3)
    ensures RecordOf(roots, name, path, node).kind != Unlistable <==> CanBeListed(roots, node)
  {
    hide AllRecords, Separate, Stands, RecordOf, CanBeListed, RecordedIn, Tells;
    RecordsOfRoots(roots, 3);
    RecordsTell(roots, name, path, node);
    RecordedInTree(roots, RecordOf(roots, name, path, node));
  }

  lemma NodeOfARecord(roots: Roots, r: Record) returns (node: Node)
    requires AllRoots(roots) && Separate(roots) && r in AllRecords(roots, 3)
    ensures r.root in roots && Stands(roots[r.root].tree, r.path, node)
    ensures r == RecordOf(roots, r.root, r.path, node)
    ensures r.kind != Unlistable <==> CanBeListed(roots, node)
  {
    hide AllRecords, Separate, Stands, RecordOf, CanBeListed, RecordedIn, Tells;
    RecordsOfRoots(roots, 3);
    RecordedInTree(roots, r);
    node :| Stands(roots[r.root].tree, r.path, node) && r == RecordOf(roots, r.root, r.path, node);
    RecordsTell(roots, r.root, r.path, node);
  }

  /** No record is refused exactly when every node of the roots can be listed. */
  lemma AllListable(roots: Roots)
    requires AllRoots(roots) && Separate(roots)
    ensures AllListed(roots) <==> AllCanBeListed(roots)
  {
    hide AllRecords, Separate, Stands, RecordOf, CanBeListed;
    if AllListed(roots) {
      forall name, path, node | name in roots && Stands(roots[name].tree, path, node)
        ensures CanBeListed(roots, node)
      {
        RecordOfANode(roots, name, path, node);
      }
    }
    if AllCanBeListed(roots) {
      forall r | r in AllRecords(roots, 3)
        ensures r.kind != Unlistable
      {
        var node := NodeOfARecord(roots, r);
      }
    }
  }

  /** The records of an inventory are exactly those that tell of a node where it stands. */
  lemma RecordsTellOfNodes(roots: Roots, r: Record)
    requires AllRoots(roots) && Separate(roots) && Listable(roots)
    ensures r in AllRecords(roots, 3) <==> TellsOfANode(roots, r)
  {
    hide AllRecords, AllBytes, Separate, Stands, RecordOf, CanBeListed, RecordedIn, Tells;
    AllListable(roots);
    RecordsOfRoots(roots, 3);
    RecordedInTree(roots, r);
    if r.root in roots {
      forall node | Stands(roots[r.root].tree, r.path, node)
        ensures r == RecordOf(roots, r.root, r.path, node) <==> Tells(roots, r, node)
      {
        RecordsTell(roots, r.root, r.path, node);
      }
    }
  }

  // ----- comparing installations -----

  /** The same kind of node with the same mode; files with the same bytes, links to the same place. */
  ghost predicate SameNode(a: Roots, m: Node, b: Roots, n: Node) {
    && m.mode == n.mode
    && (m.File? <==> n.File?) && (m.File? && n.File? ==> m.digest == n.digest && m.size == n.size)
    && (m.Directory? <==> n.Directory?)
    && (m.Link? <==> n.Link?)
    && (m.Link? && n.Link? ==> exists q, rest :: Leads(a, m.target, q, rest) && Leads(b, n.target, q, rest))
  }

  /** Whatever stands in `a` stands in `b` at the same place. */
  ghost predicate HoldsToo(a: Roots, b: Roots) {
    forall name, path, m :: name in a && Stands(a[name].tree, path, m) ==>
      name in b && exists n :: Stands(b[name].tree, path, n) && SameNode(a, m, b, n)
  }

  lemma SameNodesSameRecords(a: Roots, m: Node, b: Roots, n: Node, r: Record)
    requires AllRoots(a) && Separate(a) && AllRoots(b) && Separate(b) && CanBeListed(b, n) && Tells(a, r, m)
    ensures SameNode(a, m, b, n) <==> Tells(b, r, n)
  {
    hide Separate, AllRoots, Leads;
    if m.Link? && n.Link? {
      LinkLeads(a, m.target);
      LinkLeads(b, n.target);
    }
  }

  lemma RecordsCompareNodes(a: Roots, b: Roots)
    requires AllRoots(a) && Separate(a) && Listable(a) && AllRoots(b) && Separate(b) && Listable(b)
    ensures (forall r :: r in AllRecords(a, 3) ==> r in AllRecords(b, 3)) <==> HoldsToo(a, b)
  {
    hide AllRecords, Separate, Stands, RecordOf, CanBeListed, RecordedIn, Tells, SameNode;
    AllListable(a);
    AllListable(b);
    if forall r :: r in AllRecords(a, 3) ==> r in AllRecords(b, 3) {
      forall name, path, m | name in a && Stands(a[name].tree, path, m)
        ensures name in b && exists n :: Stands(b[name].tree, path, n) && SameNode(a, m, b, n)
      {
        var r := RecordOf(a, name, path, m);
        RecordsTell(a, name, path, m);
        RecordsTellOfNodes(a, r);
        RecordsTellOfNodes(b, r);
        var n :| Stands(b[name].tree, path, n) && Tells(b, r, n);
        SameNodesSameRecords(a, m, b, n, r);
      }
    }
    if HoldsToo(a, b) {
      forall r | r in AllRecords(a, 3)
        ensures r in AllRecords(b, 3)
      {
        RecordsTellOfNodes(a, r);
        var m :| Stands(a[r.root].tree, r.path, m) && Tells(a, r, m);
        var n :| Stands(b[r.root].tree, r.path, n) && SameNode(a, m, b, n);
        SameNodesSameRecords(a, m, b, n, r);
        RecordsTellOfNodes(b, r);
      }
    }
  }

  lemma OnceIsASet(a: multiset<Record>, b: multiset<Record>)
    requires Once(a) && Once(b)
    ensures a == b <==> (forall r :: r in a ==> r in b) && (forall r :: r in b ==> r in a)
  {
    if (forall r :: r in a ==> r in b) && (forall r :: r in b ==> r in a) {
      forall r
        ensures a[r] == b[r]
      {
        assert r in a <==> r in b;
      }
    }
  }

  /**
    Two installations have equal inventories exactly when at every path of every root both hold the
    same kind of node with the same mode, files with the same digest and size, and links to the same
    place of the same root.
  */
  lemma InventoriesCompareNodes(a: Roots, b: Roots, x: seq<Record>, y: seq<Record>)
    requires AllRoots(a) && Separate(a) && Listable(a) && ProperTrees(a)
    requires AllRoots(b) && Separate(b) && Listable(b) && ProperTrees(b)
    requires multiset(x) == AllRecords(a, 3) && Ordered(x) && multiset(y) == AllRecords(b, 3) && Ordered(y)
    ensures x == y <==> HoldsToo(a, b) && HoldsToo(b, a)
  {
    hide AllRecords, Ordered, Separate, Listable, ProperTrees, HoldsToo, Once;
    AllRecordsOnce(a, 3);
    AllRecordsOnce(b, 3);
    OnceIsASet(AllRecords(a, 3), AllRecords(b, 3));
    RecordsCompareNodes(a, b);
    RecordsCompareNodes(b, a);
    if multiset(x) == multiset(y) {
      OrderedIsUnique(x, y);
    }
  }

  // ----- the ceilings -----

  /** The sizes of the files among these records. */
  function Sizes(entries: seq<Record>): nat {
    if entries == [] then 0
    else
      var kind := entries[|entries| - 1].kind;
      Sizes(entries[..|entries| - 1]) + if kind.IsFile? then kind.size else 0
  }

  lemma {:induction false} SizesAdd(a: seq<Record>, b: seq<Record>)
    ensures Sizes(a + b) == Sizes(a) + Sizes(b)
  {
    if b == [] {
      assert a + b == a;
    } else {
      SizesAdd(a, b[..|b| - 1]);
      assert (a + b)[..|a + b| - 1] == a + b[..|b| - 1];
    }
  }

  lemma {:induction false} SizesInAnyOrder(a: seq<Record>, b: seq<Record>)
    requires multiset(a) == multiset(b)
    ensures Sizes(a) == Sizes(b)
  {
    if a == [] {
      EmptyElsewhere(b);
    } else {
      var j := LastElsewhere(a, b);
      SizesInAnyOrder(a[..|a| - 1], b[..j] + b[j + 1..]);
      assert b == b[..j] + [b[j]] + b[j + 1..];
      SizesAdd(b[..j], b[j + 1..]);
      SizesAdd(b[..j] + [b[j]], b[j + 1..]);
      SizesAdd(b[..j], [b[j]]);
      assert [b[j]][..0] == [];
    }
  }

  lemma OneSize(roots: Roots, name: string, path: Path, node: Node)
    requires (forall i :: 0 <= i < 3 ==> LABELS[i] in roots) && RecordOf(roots, name, path, node).kind != Unlistable
    ensures Sizes([RecordOf(roots, name, path, node)]) == SizeOf(node)
  {
    var r := RecordOf(roots, name, path, node);
    assert [r][..0] == [];
  }

  lemma BytesOne(children: seq<Child>)
    requires children != []
    ensures
      var last := children[|children| - 1].node;
      BytesBelow(children) == BytesBelow(children[..|children| - 1]) + SizeOf(last)
                              + if last.Directory? then BytesBelow(last.children) else 0
  {
  }

  lemma {:induction false} ListBelow(roots: Roots, name: string, path: Path, children: seq<Child>)
    returns (x: seq<Record>)
    requires forall i :: 0 <= i < 3 ==> LABELS[i] in roots
    requires forall r :: r in Below(roots, name, path, children) ==> r.kind != Unlistable
    ensures multiset(x) == Below(roots, name, path, children) && Sizes(x) == BytesBelow(children)
    decreases children
  {
    hide Below, RecordOf, BytesBelow, SizeOf, Sizes;
    if children == [] {
      NothingBelow(roots, name, path);
      NoSize();
      x := [];
    } else {
      var front, last := children[..|children| - 1], children[|children| - 1];
      var here := path + [last.name];
      BelowOne(roots, name, path, children);
      BytesOne(children);
      var before := ListBelow(roots, name, path, front);
      var record := RecordOf(roots, name, here, last.node);
      var inside := [];
      if last.node.Directory? {
        inside := ListBelow(roots, name, here, last.node.children);
      } else {
        NothingBelow(roots, name, here);
        NoSize();
      }
      assert record in Below(roots, name, path, children);
      OneSize(roots, name, here, last.node);
      SizesAdd(before, [record]);
      SizesAdd(before + [record], inside);
      x := before + [record] + inside;
    }
  }

  lemma NoSize()
    ensures Sizes([]) == 0 && BytesBelow([]) == 0
  {
  }

  lemma ListRoot(roots: Roots, name: string, tree: Node) returns (x: seq<Record>)
    requires forall i :: 0 <= i < 3 ==> LABELS[i] in roots
    requires forall r :: r in Everything(roots, name, [], tree) ==> r.kind != Unlistable
    ensures multiset(x) == Everything(roots, name, [], tree) && Sizes(x) == Bytes(tree)
  {
    hide Below, RecordOf, BytesBelow, SizeOf, Sizes, Bytes;
    var record := RecordOf(roots, name, [], tree);
    assert record in Everything(roots, name, [], tree);
    OneSize(roots, name, [], tree);
    BytesOf(tree);
    NoSize();
    var inside := [];
    if tree.Directory? {
      inside := ListBelow(roots, name, [], tree.children);
    }
    SizesAdd([record], inside);
    x := [record] + inside;
  }

  lemma {:induction false} ListAll(roots: Roots, k: nat) returns (x: seq<Record>)
    requires k <= 3 && forall i :: 0 <= i < 3 ==> LABELS[i] in roots
    requires forall r :: r in AllRecords(roots, k) ==> r.kind != Unlistable
    ensures multiset(x) == AllRecords(roots, k) && Sizes(x) == AllBytes(roots, k)
  {
    hide Everything, Sizes, Bytes;
    NoSize();
    if k == 0 {
      x := [];
    } else {
      var before := ListAll(roots, k - 1);
      var more := ListRoot(roots, LABELS[k - 1], roots[LABELS[k - 1]].tree);
      SizesAdd(before, more);
      x := before + more;
    }
  }

  lemma BytesOf(tree: Node)
    ensures Bytes(tree) == SizeOf(tree) + if tree.Directory? then BytesBelow(tree.children) else 0
  {
  }

  /** The ceilings are on the number of records and on the sizes of the files among them. */
  lemma ListableExactly(roots: Roots, x: seq<Record>)
    requires AllRoots(roots) && Separate(roots) && multiset(x) == AllRecords(roots, 3)
    ensures Listable(roots) <==>
            AllCanBeListed(roots) && |x| <= 40_000 && Sizes(x) <= 4_294_967_296
  {
    hide AllRecords, Separate, Stands, CanBeListed, Sizes, AllBytes, AllCanBeListed;
    AllListable(roots);
    assert |multiset(x)| == |x|;
    if AllListed(roots) {
      var y := ListAll(roots, 3);
      SizesInAnyOrder(x, y);
    }
  }

  // ----- the order -----

  /** At the first place where the two differ, `a` has ended or has the lower character. */
  ghost predicate LowerAt(a: string, b: string, i: nat) {
    i < |b| && i <= |a| && a[..i] == b[..i] && (i < |a| ==> a[i] < b[i])
  }

  lemma SameStart(a: string, b: string, i: nat)
    requires LowerAt(a, b, i)
    ensures i == 0 || a[0] == b[0]
  {
    if i > 0 {
      assert a[..i][0] == b[..i][0];
    }
  }

  lemma {:induction false} PrecedesIsLexicographic(a: string, b: string)
    ensures Precedes(a, b) <==> exists i :: LowerAt(a, b, i)
  {
    if b == [] {
    } else if a == [] {
      assert LowerAt(a, b, 0);
    } else if a[0] != b[0] {
      if a[0] < b[0] {
        assert LowerAt(a, b, 0);
      }
      forall i: nat | LowerAt(a, b, i)
        ensures i == 0
      {
        SameStart(a, b, i);
      }
    } else {
      PrecedesIsLexicographic(a[1..], b[1..]);
      if i: nat :| LowerAt(a, b, i) {
        assert a[..i][1..] == a[1..][..i - 1] && b[..i][1..] == b[1..][..i - 1];
        assert LowerAt(a[1..], b[1..], i - 1);
      }
      if i: nat :| LowerAt(a[1..], b[1..], i) {
        assert a[..i + 1] == [a[0]] + a[1..][..i] && b[..i + 1] == [b[0]] + b[1..][..i];
        assert LowerAt(a, b, i + 1);
      }
    }
  }

  /** A path is written with one slash between its names, and as a dot where it has none. */
  lemma {:induction false} PathsAreWrittenWithSlashes(p: Path, q: Path)
    ensures Posix([]) == "." && (|p| == 1 ==> Posix(p) == p[0])
    ensures p != [] && q != [] ==> Posix(p + q) == Posix(p) + "/" + Posix(q)
  {
    if p != [] && q != [] {
      assert p + q == [p[0]] + (p[1..] + q);
      if |p| == 1 {
        assert p[1..] + q == q;
      } else {
        PathsAreWrittenWithSlashes(p[1..], q);
        assert Posix(p + q) == p[0] + "/" + (Posix(p[1..]) + "/" + Posix(q));
      }
    }
  }

  /** The list is ordered by root, and within a root by the written path. */
  lemma OrderIsByRootAndPath(entries: seq<Record>, i: nat, j: nat)
    requires Ordered(entries) && i < j < |entries|
    ensures
      var a, b := entries[i], entries[j];
      || (exists d :: LowerAt(a.root, b.root, d))
      || (a.root == b.root && exists d :: LowerAt(Posix(a.path), Posix(b.path), d))
  {
    hide Precedes, Posix, LowerAt;
    PrecedesIsLexicographic(entries[i].root, entries[j].root);
    PrecedesIsLexicographic(Posix(entries[i].path), Posix(entries[j].path));
  }
}
