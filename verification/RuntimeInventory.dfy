/**
  The inventory of an installed runtime: three separate roots, each walked with an explicit stack in
  whatever order its directories are listed, and one sorted list of everything found.
*/
module RuntimeInventory {
  import opened Outcomes
  import opened StableSort

  const MAXIMUM_ENTRIES := 40_000
  const MAXIMUM_BYTES := 4 * 1024 * 1024 * 1024

  const LABELS: seq<string> := ["code", "environment", "python"]

  type Path = seq<string>

  /** `sound` stands for ownership, permissions, link count and not changing while being read. */
  datatype Node =
    | File(mode: int, size: nat, digest: int, sound: bool)
    | Directory(mode: int, children: seq<Child>, sound: bool)
    | Link(mode: int, target: Path, sound: bool)
    | Special(mode: int)

  /** A directory's children, in the order in which they are listed. */
  datatype Child = Child(name: string, node: Node)

  datatype Root = Root(base: Path, identity: int, tree: Node)

  type Roots = map<string, Root>

  datatype Kind = IsDirectory | IsFile(digest: int, size: nat) | IsLink(root: string, path: Path) | Unlistable

  datatype Record = Record(root: string, path: Path, mode: int, kind: Kind)

  // ----- the roots -----

  ghost predicate AllRoots(roots: Roots) {
    roots.Keys == {"code", "environment", "python"}
  }

  /** `path` is `base` or lies below it. */
  predicate RelativeTo(path: Path, base: Path) {
    base <= path
  }

  ghost predicate Separate(roots: Roots) {
    forall a, b :: a in roots && b in roots && a != b ==>
      roots[a].identity != roots[b].identity && !RelativeTo(roots[a].base, roots[b].base)
  }

  method CheckRoots(roots: Roots) returns (ok: bool)
    ensures ok <==> AllRoots(roots) && Separate(roots)
    ensures ok <==> roots.Keys == {"code", "environment", "python"}
                    && forall a, b :: a in roots && b in roots && a != b ==>
                         roots[a].identity != roots[b].identity && !(roots[b].base <= roots[a].base)
  {
    if roots.Keys != {"code", "environment", "python"} {
      return false;
    }
    for i := 0 to 3
      invariant forall k, b :: 0 <= k < i && b in roots && LABELS[k] != b ==>
                  roots[LABELS[k]].identity != roots[b].identity && !RelativeTo(roots[LABELS[k]].base, roots[b].base)
    {
      for j := 0 to 3
        invariant forall k :: 0 <= k < j && LABELS[k] != LABELS[i] ==>
                    roots[LABELS[i]].identity != roots[LABELS[k]].identity
                      && !RelativeTo(roots[LABELS[i]].base, roots[LABELS[k]].base)
      {
        var a, b := LABELS[i], LABELS[j];
        if a != b && (roots[a].identity == roots[b].identity || RelativeTo(roots[a].base, roots[b].base)) {
          return false;
        }
      }
      forall b | b in roots
        ensures b == LABELS[0] || b == LABELS[1] || b == LABELS[2]
      {
      }
    }
    forall a | a in roots
      ensures a == LABELS[0] || a == LABELS[1] || a == LABELS[2]
    {
    }
    return true;
  }

  /** The roots a link target lies in, with its path there. */
  function Matches(roots: Roots, target: Path, k: nat): seq<(string, Path)>
    requires k <= 3 && forall i :: 0 <= i < 3 ==> LABELS[i] in roots
  {
    if k == 0 then []
    else
      var base := roots[LABELS[k - 1]].base;
      Matches(roots, target, k - 1)
      + if RelativeTo(target, base) then [(LABELS[k - 1], target[|base|..])] else []
  }

  /** A target cannot lie in two separate roots. */
  lemma {:induction false} LinksMatchOneRootAtMost(roots: Roots, target: Path, k: nat)
    requires AllRoots(roots) && Separate(roots) && k <= 3
    ensures |Matches(roots, target, k)| <= 1
    ensures |Matches(roots, target, k)| == 1 <==> exists i :: 0 <= i < k && RelativeTo(target, roots[LABELS[i]].base)
  {
    assert LABELS[0] != LABELS[1] && LABELS[0] != LABELS[2] && LABELS[1] != LABELS[2];
    if k != 0 {
      LinksMatchOneRootAtMost(roots, target, k - 1);
      if i :|
        0 <= i < k - 1 && RelativeTo(target, roots[LABELS[i]].base) && RelativeTo(target, roots[LABELS[k - 1]].base)
      {
        BothAboveMeansNested(roots[LABELS[i]].base, roots[LABELS[k - 1]].base, target);
      }
    }
  }

  lemma BothAboveMeansNested(a: Path, b: Path, target: Path)
    requires RelativeTo(target, a) && RelativeTo(target, b)
    ensures RelativeTo(a, b) || RelativeTo(b, a)
  {
    if |a| <= |b| {
      assert a == target[..|a|] == b[..|a|];
    } else {
      assert b == target[..|b|] == a[..|b|];
    }
  }

  // ----- what there is -----

  function KindOf(roots: Roots, node: Node): Kind
    requires forall i :: 0 <= i < 3 ==> LABELS[i] in roots
  {
    match node
    case File(_, size, digest, sound) => if sound then IsFile(digest, size) else Unlistable
    case Directory(_, _, sound) => if sound then IsDirectory else Unlistable
    case Link(_, target, sound) =>
      var matches := Matches(roots, target, 3);
      if sound && |matches| == 1 then IsLink(matches[0].0, matches[0].1) else Unlistable
    case Special(_) => Unlistable
  }

  function RecordOf(roots: Roots, name: string, path: Path, node: Node): Record
    requires forall i :: 0 <= i < 3 ==> LABELS[i] in roots
  {
    Record(name, path, node.mode, KindOf(roots, node))
  }

  /** One record for everything below a directory, whatever the listing order. */
  ghost function Below(roots: Roots, name: string, path: Path, children: seq<Child>): multiset<Record>
    requires forall i :: 0 <= i < 3 ==> LABELS[i] in roots
    decreases children
  {
    if children == [] then multiset{}
    else
      var last := children[|children| - 1];
      var here := path + [last.name];
      Below(roots, name, path, children[..|children| - 1])
      + multiset{RecordOf(roots, name, here, last.node)}
      + match last.node
        case Directory(_, inside, _) => Below(roots, name, here, inside)
        case _ => multiset{}
  }

  /** A node and everything below it. */
  ghost function Everything(roots: Roots, name: string, path: Path, node: Node): multiset<Record>
    requires forall i :: 0 <= i < 3 ==> LABELS[i] in roots
  {
    multiset{RecordOf(roots, name, path, node)}
    + if node.Directory? then Below(roots, name, path, node.children) else multiset{}
  }

  function BytesBelow(children: seq<Child>): nat {
    if children == [] then 0
    else
      BytesBelow(children[..|children| - 1])
      + match children[|children| - 1].node
        case File(_, size, _, _) => size
        case Directory(_, inside, _) => BytesBelow(inside)
        case _ => 0
  }

  function Bytes(node: Node): nat {
    match node
    case File(_, size, _, _) => size
    case Directory(_, inside, _) => BytesBelow(inside)
    case _ => 0
  }

  /** All records of the first `k` roots. */
  ghost function AllRecords(roots: Roots, k: nat): multiset<Record>
    requires k <= 3 && forall i :: 0 <= i < 3 ==> LABELS[i] in roots
  {
    if k == 0 then multiset{}
    else AllRecords(roots, k - 1) + Everything(roots, LABELS[k - 1], [], roots[LABELS[k - 1]].tree)
  }

  function AllBytes(roots: Roots, k: nat): nat
    requires k <= 3 && forall i :: 0 <= i < 3 ==> LABELS[i] in roots
  {
    if k == 0 then 0 else AllBytes(roots, k - 1) + Bytes(roots[LABELS[k - 1]].tree)
  }

  /** Everything can be listed and the ceilings hold. */
  ghost predicate Listable(roots: Roots)
    requires forall i :: 0 <= i < 3 ==> LABELS[i] in roots
  {
    && (forall r :: r in AllRecords(roots, 3) ==> r.kind != Unlistable)
    && |AllRecords(roots, 3)| <= MAXIMUM_ENTRIES && AllBytes(roots, 3) <= MAXIMUM_BYTES
  }

  // ----- order does not matter -----

  ghost function One(roots: Roots, name: string, path: Path, c: Child): multiset<Record>
    requires forall i :: 0 <= i < 3 ==> LABELS[i] in roots
  {
    Everything(roots, name, path + [c.name], c.node)
  }

  lemma BelowNext(roots: Roots, name: string, path: Path, front: seq<Child>, c: Child)
    requires forall i :: 0 <= i < 3 ==> LABELS[i] in roots
    ensures Below(roots, name, path, front + [c]) == Below(roots, name, path, front) + One(roots, name, path, c)
    ensures BytesBelow(front + [c]) == BytesBelow(front) + Bytes(c.node)
  {
    assert (front + [c])[..|front|] == front;
  }

  lemma {:induction false} BelowWithout(roots: Roots, name: string, path: Path, children: seq<Child>, j: nat)
    requires j < |children| && forall i :: 0 <= i < 3 ==> LABELS[i] in roots
    ensures Below(roots, name, path, children)
            == Below(roots, name, path, children[..j] + children[j + 1..]) + One(roots, name, path, children[j])
    ensures BytesBelow(children) == BytesBelow(children[..j] + children[j + 1..]) + Bytes(children[j].node)
  {
    hide Below, One, BytesBelow, Bytes;
    var front, last := children[..|children| - 1], children[|children| - 1];
    assert children == front + [last];
    BelowNext(roots, name, path, front, last);
    if j == |children| - 1 {
      assert children[..j] + children[j + 1..] == front;
    } else {
      BelowWithout(roots, name, path, front, j);
      var without := front[..j] + front[j + 1..];
      assert children[..j] + children[j + 1..] == without + [last];
      BelowNext(roots, name, path, without, last);
    }
  }

  lemma LastElsewhere<T>(a: seq<T>, b: seq<T>) returns (j: nat)
    requires a != [] && multiset(a) == multiset(b)
    ensures j < |b| && b[j] == a[|a| - 1]
    ensures multiset(b[..j] + b[j + 1..]) == multiset(a[..|a| - 1])
  {
    var front, last := a[..|a| - 1], a[|a| - 1];
    assert a == front + [last];
    assert last in multiset(b);
    j :| 0 <= j < |b| && b[j] == last;
    assert b == b[..j] + [last] + b[j + 1..];
    assert multiset(b) == multiset(b[..j] + b[j + 1..]) + multiset{last};
    assert multiset(a) == multiset(front) + multiset{last};
    assert multiset(b[..j] + b[j + 1..]) == multiset(b) - multiset{last} == multiset(front);
  }

  lemma EmptyElsewhere<T>(b: seq<T>)
    requires multiset(b) == multiset{}
    ensures b == []
  {
    assert |multiset(b)| == |b|;
  }

  /** The same children listed in another order hold the same records. */
  lemma {:induction false} ListingOrderIsIrrelevant(roots: Roots, name: string, path: Path, a: seq<Child>,
      b: seq<Child>)
    requires multiset(a) == multiset(b) && forall i :: 0 <= i < 3 ==> LABELS[i] in roots
    ensures Below(roots, name, path, a) == Below(roots, name, path, b) && BytesBelow(a) == BytesBelow(b)
    decreases |a|
  {
    hide Below, One, BytesBelow, Bytes;
    if a == [] {
      EmptyElsewhere(b);
    } else {
      var front, last := a[..|a| - 1], a[|a| - 1];
      assert a == front + [last];
      var j := LastElsewhere(a, b);
      ListingOrderIsIrrelevant(roots, name, path, front, b[..j] + b[j + 1..]);
      BelowNext(roots, name, path, front, last);
      BelowWithout(roots, name, path, b, j);
    }
  }

  // ----- the walk -----

  datatype Item = Item(path: Path, node: Node)

  ghost function Pending(roots: Roots, name: string, items: seq<Item>): multiset<Record>
    requires forall i :: 0 <= i < 3 ==> LABELS[i] in roots
  {
    if items == [] then multiset{}
    else
      var last := items[|items| - 1];
      Pending(roots, name, items[..|items| - 1]) + Everything(roots, name, last.path, last.node)
  }

  function PendingBytes(items: seq<Item>): nat {
    if items == [] then 0 else PendingBytes(items[..|items| - 1]) + Bytes(items[|items| - 1].node)
  }

  function ItemOf(path: Path, c: Child): Item {
    Item(path + [c.name], c.node)
  }

  function ItemsOf(path: Path, children: seq<Child>): (r: seq<Item>)
    ensures |r| == |children| && forall i :: 0 <= i < |r| ==> r[i] == ItemOf(path, children[i])
  {
    seq(|children|, i requires 0 <= i < |children| => ItemOf(path, children[i]))
  }

  lemma {:induction false} PushedChildren(roots: Roots, name: string, items: seq<Item>, path: Path,
      children: seq<Child>)
    requires forall i :: 0 <= i < 3 ==> LABELS[i] in roots
    ensures Pending(roots, name, items + ItemsOf(path, children)) == Pending(roots, name, items)
            + Below(roots, name, path, children)
    ensures PendingBytes(items + ItemsOf(path, children)) == PendingBytes(items) + BytesBelow(children)
    decreases |children|
  {
    hide Bytes, Everything, Below, BytesBelow, Pending, PendingBytes;
    if children == [] {
      assert items + ItemsOf(path, children) == items;
      NothingBelow(roots, name, path);
    } else {
      var front, last := children[..|children| - 1], children[|children| - 1];
      assert children == front + [last];
      PushedChildren(roots, name, items, path, front);
      PushedOne(roots, name, items + ItemsOf(path, front), ItemOf(path, last));
      assert items + ItemsOf(path, children) == (items + ItemsOf(path, front)) + [ItemOf(path, last)];
      BelowNext(roots, name, path, front, last);
    }
  }

  lemma NothingBelow(roots: Roots, name: string, path: Path)
    requires forall i :: 0 <= i < 3 ==> LABELS[i] in roots
    ensures Below(roots, name, path, []) == multiset{} && BytesBelow([]) == 0
  {
  }

  lemma PushedOne(roots: Roots, name: string, items: seq<Item>, item: Item)
    requires forall i :: 0 <= i < 3 ==> LABELS[i] in roots
    ensures Pending(roots, name, items + [item]) == Pending(roots, name, items)
            + Everything(roots, name, item.path, item.node)
    ensures PendingBytes(items + [item]) == PendingBytes(items) + Bytes(item.node)
  {
    assert (items + [item])[..|items|] == items;
  }

  /** The last name first, so that the stack yields the names in order. */
  function LaterName(a: Child, b: Child): bool {
    Precedes(b.name, a.name)
  }

  /** The order of strings, character by character. */
  predicate Precedes(a: string, b: string) {
    if b == [] then false
    else if a == [] then true
    else if a[0] != b[0] then a[0] < b[0]
    else Precedes(a[1..], b[1..])
  }

  datatype Failure = RootsOverlap | CannotList | TooManyEntries | TooManyBytes

  /** What one root has contributed and still has to contribute. */
  ghost predicate WalkFits(
      roots: Roots, k: nat, entries: seq<Record>, total: int, items: seq<Item>)
    requires k < 3 && forall i :: 0 <= i < 3 ==> LABELS[i] in roots
  {
    && multiset(entries) + Pending(roots, LABELS[k], items) == AllRecords(roots, k + 1)
    && total + PendingBytes(items) == AllBytes(roots, k + 1)
    && (forall r :: r in entries ==> r.kind != Unlistable)
    && |entries| <= MAXIMUM_ENTRIES && 0 <= total <= MAXIMUM_BYTES
  }

  /** One turn of the loop: the top of the stack is listed and its children are pushed. */
  method ListOne(roots: Roots, k: nat, entries: seq<Record>, total: int, items: seq<Item>)
    returns (r: Result<(seq<Record>, int, seq<Item>), Failure>)
    requires k < 3 && (forall i :: 0 <= i < 3 ==> LABELS[i] in roots)
    requires WalkFits(roots, k, entries, total, items) && items != []
    ensures r.Ok? ==> WalkFits(roots, k, r.value.0, r.value.1, r.value.2)
                      && |Pending(roots, LABELS[k], r.value.2)| < |Pending(roots, LABELS[k], items)|
    ensures r.Err? ==> !Listable(roots)
  {
    hide WalkFits, Pending, KindOf, Listable, Precedes;
    var item, rest := items[|items| - 1], items[..|items| - 1];
    var record := RecordOf(roots, LABELS[k], item.path, item.node);
    ListedIsPart(roots, k, entries, total, items);
    if record.kind == Unlistable {
      return Err(CannotList);
    }
    var size := SizeOf(item.node);
    if size > MAXIMUM_BYTES - total {
      return Err(TooManyBytes);
    }
    var children := if item.node.Directory? then Sort(item.node.children, LaterName) else [];
    if |entries| + 1 > MAXIMUM_ENTRIES {
      return Err(TooManyEntries);
    }
    ListedNext(roots, k, entries, total, items, children);
    return Ok((entries + [record], total + size, rest + ItemsOf(item.path, children)));
  }

  function SizeOf(node: Node): nat {
    if node.File? then node.size else 0
  }

  lemma TopOfStack(roots: Roots, name: string, items: seq<Item>)
    requires items != [] && forall i :: 0 <= i < 3 ==> LABELS[i] in roots
    ensures
      var item, rest := items[|items| - 1], items[..|items| - 1];
      && Pending(roots, name, items) == Pending(roots, name, rest)
           + multiset{RecordOf(roots, name, item.path, item.node)}
         + (if item.node.Directory? then Below(roots, name, item.path, item.node.children) else multiset{})
      && PendingBytes(items) == PendingBytes(rest) + SizeOf(item.node)
         + (if item.node.Directory? then BytesBelow(item.node.children) else 0)
  {
    hide Below, BytesBelow, RecordOf;
  }

  /** Listing the top node and pushing its children, in any order, loses and doubles nothing. */
  lemma ListedNext(roots: Roots, k: nat, entries: seq<Record>, total: int, items: seq<Item>, children: seq<Child>)
    requires k < 3 && (forall i :: 0 <= i < 3 ==> LABELS[i] in roots)
    requires WalkFits(roots, k, entries, total, items) && items != []
    requires
      var node := items[|items| - 1].node;
      multiset(children) == multiset(if node.Directory? then node.children else [])
    requires
      var item := items[|items| - 1];
      RecordOf(roots, LABELS[k], item.path, item.node).kind != Unlistable && |entries| + 1 <= MAXIMUM_ENTRIES
      && total + SizeOf(item.node) <= MAXIMUM_BYTES
    ensures
      var item := items[|items| - 1];
      var more := items[..|items| - 1] + ItemsOf(item.path, children);
      && WalkFits(roots, k, entries + [RecordOf(roots, LABELS[k], item.path, item.node)], total + SizeOf(item.node),
           more)
      && |Pending(roots, LABELS[k], more)| < |Pending(roots, LABELS[k], items)|
  {
    hide Below, BytesBelow, RecordOf, Pending, PendingBytes, AllRecords, AllBytes, SizeOf;
    var item, rest := items[|items| - 1], items[..|items| - 1];
    var listed := if item.node.Directory? then item.node.children else [];
    var record := RecordOf(roots, LABELS[k], item.path, item.node);
    TopOfStack(roots, LABELS[k], items);
    NothingBelow(roots, LABELS[k], item.path);
    ListingOrderIsIrrelevant(roots, LABELS[k], item.path, children, listed);
    PushedChildren(roots, LABELS[k], rest, item.path, children);
    assert multiset(entries + [record]) == multiset(entries) + multiset{record};
  }

  /** What is listed or pending now is part of everything, and everything is what has to be listable. */
  lemma ListedIsPart(roots: Roots, k: nat, entries: seq<Record>, total: int, items: seq<Item>)
    requires k < 3 && (forall i :: 0 <= i < 3 ==> LABELS[i] in roots)
    requires WalkFits(roots, k, entries, total, items) && items != []
    ensures
      var item := items[|items| - 1];
      var record := RecordOf(roots, LABELS[k], item.path, item.node);
      Listable(roots) ==>
        && record.kind != Unlistable && |entries| + 1 <= MAXIMUM_ENTRIES
        && total + SizeOf(item.node) <= MAXIMUM_BYTES
  {
    hide Below, BytesBelow, KindOf, AllRecords, AllBytes, RecordOf;
    var item := items[|items| - 1];
    var record := RecordOf(roots, LABELS[k], item.path, item.node);
    assert record in Everything(roots, LABELS[k], item.path, item.node);
    assert record in Pending(roots, LABELS[k], items);
    assert record in AllRecords(roots, k + 1);
    MoreRootsMoreRecords(roots, k + 1);
    assert |AllRecords(roots, k + 1)| == |entries| + |Pending(roots, LABELS[k], items)|;
  }

  lemma MoreRootsMoreRecords(roots: Roots, k: nat)
    requires k <= 3 && forall i :: 0 <= i < 3 ==> LABELS[i] in roots
    ensures AllRecords(roots, k) <= AllRecords(roots, 3) && |AllRecords(roots, k)| <= |AllRecords(roots, 3)|
    ensures AllBytes(roots, k) <= AllBytes(roots, 3)
    decreases 3 - k
  {
    hide Everything, Bytes;
    if k < 3 {
      MoreRootsMoreRecords(roots, k + 1);
      assert AllRecords(roots, k) <= AllRecords(roots, k + 1);
    }
  }

  // ----- every node once -----

  predicate ProperName(n: string) {
    n != [] && '/' !in n && n != "."
  }

  /** What the operating system guarantees of a listing: proper names, each once. */
  predicate ProperListing(children: seq<Child>) {
    children == []
    || (var front, last := children[..|children| - 1], children[|children| - 1];
        && ProperListing(front) && ProperName(last.name)
        && (forall i :: 0 <= i < |front| ==> front[i].name != last.name)
        && (last.node.Directory? ==> ProperListing(last.node.children)))
  }

  predicate ProperPath(p: Path) {
    forall i :: 0 <= i < |p| ==> ProperName(p[i])
  }

  ghost predicate ProperTrees(roots: Roots) {
    forall n :: n in roots && roots[n].tree.Directory? ==> ProperListing(roots[n].tree.children)
  }

  function ChildNames(children: seq<Child>): set<string> {
    set c | c in children :: c.name
  }

  /** Every record once, and no two records at one place. */
  ghost predicate Once(records: multiset<Record>) {
    && (forall r :: records[r] <= 1)
    && (forall r, q :: r in records && q in records && r.root == q.root && r.path == q.path ==> r == q)
  }

  /** All of them lie in one root, below one path, in children with these names. */
  ghost predicate LieBelow(records: multiset<Record>, name: string, path: Path, names: set<string>) {
    forall r :: r in records ==>
      && r.root == name && ProperPath(r.path) && |r.path| > |path| && r.path[..|path|] == path
      && r.path[|path|] in names
  }

  ghost predicate LieAtOrBelow(records: multiset<Record>, name: string, path: Path) {
    forall r :: r in records ==> r.root == name && ProperPath(r.path) && |r.path| >= |path| && r.path[..|path|] == path
  }

  lemma NodeOnce(r: Record, below: multiset<Record>, names: set<string>)
    requires Once(below) && LieBelow(below, r.root, r.path, names) && ProperPath(r.path)
    ensures Once(multiset{r} + below) && LieAtOrBelow(multiset{r} + below, r.root, r.path)
  {
  }

  lemma ChildrenOnce(name: string, path: Path, names: set<string>, child: string, front: multiset<Record>,
      last: multiset<Record>)
    requires Once(front) && LieBelow(front, name, path, names) && child !in names
    requires Once(last) && LieAtOrBelow(last, name, path + [child])
    ensures Once(front + last) && LieBelow(front + last, name, path, names + {child})
  {
    hide ProperPath;
    forall r | r in last
      ensures |r.path| > |path| && r.path[..|path|] == path && r.path[|path|] == child
    {
      var here := path + [child];
      assert r.path[..|here|] == here;
      assert r.path[..|path|] == here[..|path|] && r.path[|path|] == here[|path|];
    }
  }

  lemma ListingParts(children: seq<Child>)
    requires children != [] && ProperListing(children)
    ensures
      var front, last := children[..|children| - 1], children[|children| - 1];
      && ProperListing(front) && ProperName(last.name) && last.name !in ChildNames(front)
      && ChildNames(children) == ChildNames(front) + {last.name}
      && ProperListing(if last.node.Directory? then last.node.children else [])
  {
    hide ProperName;
    var front, last := children[..|children| - 1], children[|children| - 1];
    assert children == front + [last];
    assert ProperListing([]);
  }

  lemma {:induction false} BelowOnce(roots: Roots, name: string, path: Path, children: seq<Child>)
    requires ProperListing(children) && ProperPath(path) && forall i :: 0 <= i < 3 ==> LABELS[i] in roots
    ensures Once(Below(roots, name, path, children))
            && LieBelow(Below(roots, name, path, children), name, path, ChildNames(children))
    decreases children
  {
    hide Once, LieBelow, LieAtOrBelow, RecordOf, KindOf, Below, ProperListing, ProperName, ChildNames;
    if children == [] {
      OnceNothing(name, path);
      NothingBelow(roots, name, path);
    } else {
      var front, last := children[..|children| - 1], children[|children| - 1];
      var here := path + [last.name];
      ListingParts(children);
      BelowOnce(roots, name, path, front);
      var inside := if last.node.Directory? then last.node.children else [];
      if last.node.Directory? {
        BelowOnce(roots, name, here, last.node.children);
      } else {
        OnceNothing(name, here);
        NothingBelow(roots, name, here);
      }
      var record := RecordOf(roots, name, here, last.node);
      RecordPlace(roots, name, here, last.node);
      NodeOnce(record, Below(roots, name, here, inside), ChildNames(inside));
      ChildrenOnce(name, path, ChildNames(front), last.name, Below(roots, name, path, front),
        multiset{record} + Below(roots, name, here, inside));
      BelowOne(roots, name, path, children);
    }
  }

  lemma RecordPlace(roots: Roots, name: string, path: Path, node: Node)
    requires forall i :: 0 <= i < 3 ==> LABELS[i] in roots
    ensures RecordOf(roots, name, path, node).root == name && RecordOf(roots, name, path, node).path == path
  {
  }

  lemma OnceNothing(name: string, path: Path)
    ensures Once(multiset{}) && LieBelow(multiset{}, name, path, ChildNames([]))
  {
  }

  lemma BelowOne(roots: Roots, name: string, path: Path, children: seq<Child>)
    requires children != [] && forall i :: 0 <= i < 3 ==> LABELS[i] in roots
    ensures
      var front, last := children[..|children| - 1], children[|children| - 1];
      var here := path + [last.name];
      Below(roots, name, path, children) == Below(roots, name, path, front)
        + (multiset{RecordOf(roots, name, here, last.node)}
           + Below(roots, name, here, if last.node.Directory? then last.node.children else []))
  {
    hide RecordOf;
  }

  ghost predicate InRoots(records: multiset<Record>, k: nat)
    requires k <= 3
  {
    forall r :: r in records ==> ProperPath(r.path) && exists i :: 0 <= i < k && r.root == LABELS[i]
  }

  /** Over all three roots no place is listed twice. */
  lemma {:induction false} AllRecordsOnce(roots: Roots, k: nat)
    requires k <= 3 && ProperTrees(roots) && forall i :: 0 <= i < 3 ==> LABELS[i] in roots
    ensures Once(AllRecords(roots, k)) && InRoots(AllRecords(roots, k), k)
  {
    hide Below, RecordOf, ProperPath, ProperListing;
    if k != 0 {
      AllRecordsOnce(roots, k - 1);
      var name := LABELS[k - 1];
      var tree := roots[name].tree;
      var children := if tree.Directory? then tree.children else [];
      EmptyIsProper();
      NothingBelow(roots, name, []);
      BelowOnce(roots, name, [], children);
      RecordPlace(roots, name, [], tree);
      NodeOnce(RecordOf(roots, name, [], tree), Below(roots, name, [], children), ChildNames(children));
      RootAdded(AllRecords(roots, k - 1), Everything(roots, name, [], tree), k);
    }
  }

  lemma EmptyIsProper()
    ensures ProperPath([]) && ProperListing([])
  {
  }

  lemma RootAdded(front: multiset<Record>, last: multiset<Record>, k: nat)
    requires 0 < k <= 3 && Once(front) && InRoots(front, k - 1) && Once(last) && LieAtOrBelow(last, LABELS[k - 1], [])
    ensures Once(front + last) && InRoots(front + last, k)
  {
    hide ProperPath;
    assert LABELS[0] != LABELS[1] && LABELS[0] != LABELS[2] && LABELS[1] != LABELS[2];
    forall r | r in front
      ensures r.root != LABELS[k - 1]
    {
    }
  }

  // ----- the order of the list -----

  function Posix(p: Path): string {
    if p == [] then "." else Join(p)
  }

  function Join(p: Path): string
    requires p != []
  {
    if |p| == 1 then p[0] else p[0] + "/" + Join(p[1..])
  }

  lemma SlashIsInside(a: string, b: string, x: string, y: string)
    requires a + "/" + x == b + "/" + y
    ensures |a| < |b| ==> '/' in b
  {
    var s := a + "/" + x;
    assert s[|a|] == '/';
    if |a| < |b| {
      assert b[|a|] == s[|a|];
    }
  }

  lemma FirstComponent(a: string, b: string, x: string, y: string)
    requires '/' !in a && '/' !in b && a + "/" + x == b + "/" + y
    ensures a == b && x == y
  {
    SlashIsInside(a, b, x, y);
    SlashIsInside(b, a, y, x);
    var s := a + "/" + x;
    assert s[..|a|] == a && s[..|b|] == b && s[|a| + 1..] == x && s[|b| + 1..] == y;
  }

  lemma {:induction false} JoinIsInjective(p: Path, q: Path)
    requires p != [] && q != [] && ProperPath(p) && ProperPath(q) && Join(p) == Join(q)
    ensures p == q
  {
    if |p| > 1 {
      FirstComponent(p[0], q[0], Join(p[1..]), Join(q[1..]));
      JoinIsInjective(p[1..], q[1..]);
      assert p == [p[0]] + p[1..] && q == [q[0]] + q[1..];
    }
  }

  lemma PosixIsInjective(p: Path, q: Path)
    requires ProperPath(p) && ProperPath(q) && Posix(p) == Posix(q)
    ensures p == q
  {
    if p != [] && q != [] {
      JoinIsInjective(p, q);
    } else if p != [] {
    } else if q != [] {
    }
  }

  predicate Before(a: Record, b: Record) {
    Precedes(a.root, b.root) || (a.root == b.root && Precedes(Posix(a.path), Posix(b.path)))
  }

  lemma {:induction false} PrecedesIsTotal(a: string, b: string)
    ensures !(Precedes(a, b) && Precedes(b, a))
    ensures Precedes(a, b) || Precedes(b, a) || a == b
  {
    if a != [] && b != [] && a[0] == b[0] {
      PrecedesIsTotal(a[1..], b[1..]);
      assert a == [a[0]] + a[1..] && b == [b[0]] + b[1..];
    }
  }

  lemma {:induction false} PrecedesIsWeak(a: string, b: string, c: string)
    ensures Precedes(a, c) ==> Precedes(a, b) || Precedes(b, c)
  {
    if a != [] && b != [] && c != [] && a[0] == c[0] && a[0] == b[0] {
      PrecedesIsWeak(a[1..], b[1..], c[1..]);
    }
  }

  lemma BeforeIsAnOrder()
    ensures StrictWeakOrder(Before)
  {
    forall a, b
      ensures Before(a, b) ==> !Before(b, a)
    {
      PrecedesIsTotal(a.root, b.root);
      PrecedesIsTotal(Posix(a.path), Posix(b.path));
    }
    forall a, b, c
      ensures Before(a, c) ==> Before(a, b) || Before(b, c)
    {
      PrecedesIsWeak(a.root, b.root, c.root);
      PrecedesIsWeak(Posix(a.path), Posix(b.path), Posix(c.path));
      PrecedesIsTotal(a.root, b.root);
      PrecedesIsTotal(b.root, c.root);
    }
  }

  ghost predicate Ordered(entries: seq<Record>) {
    forall i, j :: 0 <= i < j < |entries| ==> Before(entries[i], entries[j]) && !Before(entries[j], entries[i])
  }

  lemma SortedIsOrdered(entries: seq<Record>)
    requires Sorted(entries, Before) && Once(multiset(entries)) && forall r :: r in entries ==> ProperPath(r.path)
    ensures Ordered(entries)
  {
    hide Precedes, Posix, ProperPath;
    DistinctByMultiset(entries);
    forall i, j | 0 <= i < j < |entries|
      ensures Before(entries[i], entries[j])
    {
      var a, b := entries[i], entries[j];
      assert a in multiset(entries) && b in multiset(entries) && a != b;
      PrecedesIsTotal(a.root, b.root);
      PrecedesIsTotal(Posix(a.path), Posix(b.path));
      if Posix(a.path) == Posix(b.path) {
        PosixIsInjective(a.path, b.path);
      }
    }
  }

  /** There is only one ordered list of given records. */
  lemma {:induction false} OrderedIsUnique(a: seq<Record>, b: seq<Record>)
    requires Ordered(a) && Ordered(b) && multiset(a) == multiset(b)
    ensures a == b
  {
    hide Before;
    if a == [] {
      EmptyElsewhere(b);
    } else {
      var j := LastElsewhere(a, b);
      SameLast(a, b, j);
      assert b[..j] + b[j + 1..] == b[..|b| - 1];
      OrderedIsUnique(a[..|a| - 1], b[..|b| - 1]);
      assert a == a[..|a| - 1] + [a[|a| - 1]] && b == b[..|b| - 1] + [b[|b| - 1]];
    }
  }

  lemma SameLast(a: seq<Record>, b: seq<Record>, j: nat)
    requires a != [] && Ordered(a) && Ordered(b) && multiset(a) == multiset(b) && j < |b| && b[j] == a[|a| - 1]
    ensures j == |b| - 1
  {
    hide Before, Ordered;
    var last := b[|b| - 1];
    assert last in multiset(b);
    var i :| 0 <= i < |a| && a[i] == last;
    InOrder(a, i, |a| - 1);
    InOrder(b, j, |b| - 1);
  }

  lemma InOrder(entries: seq<Record>, i: nat, j: nat)
    requires Ordered(entries) && i <= j < |entries|
    ensures i < j ==> Before(entries[i], entries[j]) && !Before(entries[j], entries[i])
  {
  }

  // ----- the inventory -----

  /**
    The inventory succeeds exactly when the roots are separate and everything in them can be listed
    within the ceilings; it then lists every node of the three roots once, ordered by root and path.
  */
  method Inventory(roots: Roots) returns (r: Result<seq<Record>, Failure>)
    requires ProperTrees(roots)
    ensures r.Ok? <==> AllRoots(roots) && Separate(roots) && Listable(roots)
    ensures r.Ok? ==> multiset(r.value) == AllRecords(roots, 3) && Ordered(r.value) && Once(multiset(r.value))
  {
    hide Listable, ProperTrees, WalkFits, RootsDone, Separate, AllRecords, Pending, Ordered, Once, Sorted,
      StrictWeakOrder, Before;
    NothingDone(roots);
    var separate := CheckRoots(roots);
    if !separate {
      return Err(RootsOverlap);
    }
    var entries, total := [], 0;
    for k := 0 to 3
      invariant RootsDone(roots, k, entries, total)
    {
      var items := [Item([], roots[LABELS[k]].tree)];
      RootBegins(roots, k, entries, total);
      while items != []
        invariant WalkFits(roots, k, entries, total, items)
        decreases |Pending(roots, LABELS[k], items)|
      {
        var next := ListOne(roots, k, entries, total, items);
        if next.Err? {
          return Err(next.error);
        }
        entries, total, items := next.value.0, next.value.1, next.value.2;
      }
      RootEnds(roots, k, entries, total);
    }
    EverythingListed(roots, entries, total);
    var sorted := Sort(entries, Before);
    ListIsOrdered(roots, entries);
    return Ok(sorted);
  }

  lemma NothingDone(roots: Roots)
    ensures AllRoots(roots) ==> RootsDone(roots, 0, [], 0)
  {
  }

  lemma ListIsOrdered(roots: Roots, entries: seq<Record>)
    requires ProperTrees(roots) && AllRoots(roots) && multiset(entries) == AllRecords(roots, 3)
    ensures
      var sorted := Sort(entries, Before);
      multiset(sorted) == AllRecords(roots, 3) && Ordered(sorted) && Once(multiset(sorted))
  {
    hide ProperTrees, AllRecords, Ordered, Once, Sorted, StrictWeakOrder, Before;
    AllRecordsOnce(roots, 3);
    BeforeIsAnOrder();
    SortSorts(entries, Before);
    SortedIsOrdered(Sort(entries, Before));
  }

  /** The first `k` roots have been listed completely. */
  ghost predicate RootsDone(roots: Roots, k: nat, entries: seq<Record>, total: int)
    requires k <= 3 && forall i :: 0 <= i < 3 ==> LABELS[i] in roots
  {
    && multiset(entries) == AllRecords(roots, k) && total == AllBytes(roots, k)
    && (forall r :: r in entries ==> r.kind != Unlistable)
    && |entries| <= MAXIMUM_ENTRIES && 0 <= total <= MAXIMUM_BYTES
  }

  lemma RootBegins(roots: Roots, k: nat, entries: seq<Record>, total: int)
    requires k < 3 && (forall i :: 0 <= i < 3 ==> LABELS[i] in roots) && RootsDone(roots, k, entries, total)
    ensures WalkFits(roots, k, entries, total, [Item([], roots[LABELS[k]].tree)])
  {
    hide Everything, Bytes;
    var items := [Item([], roots[LABELS[k]].tree)];
    assert items[..0] == [];
    assert Pending(roots, LABELS[k], items) == Everything(roots, LABELS[k], [], roots[LABELS[k]].tree);
    assert PendingBytes(items) == Bytes(roots[LABELS[k]].tree);
  }

  lemma RootEnds(roots: Roots, k: nat, entries: seq<Record>, total: int)
    requires k < 3 && (forall i :: 0 <= i < 3 ==> LABELS[i] in roots) && WalkFits(roots, k, entries, total, [])
    ensures RootsDone(roots, k + 1, entries, total)
  {
    hide AllRecords, AllBytes;
    assert multiset(entries) + multiset{} == multiset(entries);
  }

  lemma EverythingListed(roots: Roots, entries: seq<Record>, total: int)
    requires (forall i :: 0 <= i < 3 ==> LABELS[i] in roots) && RootsDone(roots, 3, entries, total)
    ensures Listable(roots) && multiset(entries) == AllRecords(roots, 3)
  {
    hide AllRecords, AllBytes;
    assert |multiset(entries)| == |entries|;
    forall r | r in AllRecords(roots, 3)
      ensures r.kind != Unlistable
    {
      assert r in multiset(entries);
    }
  }
}
