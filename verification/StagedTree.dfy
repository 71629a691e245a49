/** Staging: building a directory tree from a flat inventory and walking it back (`stage`, `inventory_staged`). */
module StagedTree {
  import opened Outcome
  import opened RelativePath
  import opened LinkResolution

  newtype Byte = b: int | 0 <= b < 256

  /** A `Special` is a FIFO, a socket or a device. */
  datatype Node = Directory(entries: map<string, Node>) | Regular(data: seq<Byte>) | Link(target: string) | Special

  /** What one path of a tree holds; a directory is shown without its contents. */
  datatype Shape = Folder | Leaf(node: Node)

  function ShapeOf(t: Node): Shape {
    if t.Directory? then Folder else Leaf(t)
  }

  function View(t: Node, p: Path): Option<Shape>
    decreases |p|
  {
    if p == [] then Some(ShapeOf(t))
    else if t.Directory? && p[0] in t.entries then View(t.entries[p[0]], p[1..])
    else None
  }

  /** Why a name cannot be created; none of them may happen while staging. */
  datatype Fault = NoParent | ParentIsFile | ThroughLink | NameTaken

  /** `mkdir` without `parents`, `O_CREAT|O_EXCL`, `symlink`: the parent must be there and the name free. */
  function Create(t: Node, p: Path, n: Node): Result<Node, Fault>
    requires p != []
    decreases |p|
  {
    match t
    case Regular(_) => Err(ParentIsFile)
    case Link(_) => Err(ThroughLink)
    case Special => Err(ParentIsFile)
    case Directory(entries) =>
      if |p| == 1 then
        if p[0] in entries then Err(NameTaken) else Ok(Directory(entries[p[0] := n]))
      else if p[0] !in entries then Err(NoParent)
      else
        match Create(entries[p[0]], p[1..], n)
        case Ok(child) => Ok(Directory(entries[p[0] := child]))
        case Err(fault) => Err(fault)
  }

  function Parent(p: Path): Path
    requires p != []
  {
    p[..|p| - 1]
  }

  /** Creation succeeds exactly when the parent is a real directory and the name is free. */
  lemma {:induction false} CreateSucceeds(t: Node, p: Path, n: Node)
    requires p != []
    ensures Create(t, p, n).Ok? <==> View(t, Parent(p)) == Some(Folder) && View(t, p) == None
    decreases |p|
  {
    if t.Directory? && |p| > 1 && p[0] in t.entries {
      CreateSucceeds(t.entries[p[0]], p[1..], n);
      assert Parent(p)[1..] == Parent(p[1..]);
    }
  }

  /** It adds that one path and changes no other. */
  lemma {:induction false} CreateAdds(t: Node, p: Path, n: Node, q: Path)
    requires p != [] && Create(t, p, n).Ok?
    requires n.Directory? ==> n.entries == map[]
    ensures View(Create(t, p, n).value, q) == if q == p then Some(ShapeOf(n)) else View(t, q)
    decreases |p|
  {
    if q != [] && q[0] == p[0] {
      if |p| == 1 {
        assert q == p <==> q[1..] == [];
      } else {
        CreateAdds(t.entries[p[0]], p[1..], n, q[1..]);
        assert q == [q[0]] + q[1..] && p == [p[0]] + p[1..];
      }
    }
  }

  /** The directories of an inventory: every proper, nonempty prefix of a name. */
  ghost function Parents(inputs: Inputs): set<Path> {
    set p, k | p in inputs && 0 < k < |p| :: p[..k]
  }

  /** No name is empty, and no name is a directory of another. */
  ghost predicate Separate(inputs: Inputs) {
    [] !in inputs && Parents(inputs) !! inputs.Keys
  }

  lemma ParentsAreClosed(inputs: Inputs, p: Path)
    requires p in inputs || p in Parents(inputs)
    requires |p| > 1
    ensures Parent(p) in Parents(inputs)
  {
    if p in inputs {
      assert Parent(p) == p[..|p| - 1];
    } else {
      var q, k :| q in inputs && 0 < k < |q| && p == q[..k];
      assert Parent(p) == q[..k - 1];
    }
  }

  function NodeFor(item: Item, data: seq<Byte>): Node {
    match item
    case File(_, _) => Regular(data)
    case Symlink(target) => Link(target)
  }

  function DataAt(data: map<Path, seq<Byte>>, p: Path): seq<Byte> {
    if p in data then data[p] else []
  }

  /** The tree holds exactly the directories `dirs` and the inventory entries `names`, and nothing else. */
  ghost predicate Holds(t: Node, inputs: Inputs, data: map<Path, seq<Byte>>, dirs: set<Path>, names: set<Path>)
    requires names <= inputs.Keys
  {
    forall q :: View(t, q) ==
      if q == [] || q in dirs then Some(Folder)
      else if q in names then Some(Leaf(NodeFor(inputs[q], DataAt(data, q))))
      else None
  }

  lemma HoldsDirectory(t: Node, inputs: Inputs, data: map<Path, seq<Byte>>, dirs: set<Path>, d: Path)
    requires Holds(t, inputs, data, dirs, {})
    requires d != [] && d !in dirs && (Parent(d) == [] || Parent(d) in dirs)
    ensures Create(t, d, Directory(map[])).Ok?
    ensures Holds(Create(t, d, Directory(map[])).value, inputs, data, dirs + {d}, {})
  {
    CreateSucceeds(t, d, Directory(map[]));
    forall q {
      CreateAdds(t, d, Directory(map[]), q);
    }
  }

  lemma HoldsLeaf(t: Node, inputs: Inputs, data: map<Path, seq<Byte>>, dirs: set<Path>, names: set<Path>, p: Path)
    requires names <= inputs.Keys && p in inputs && Holds(t, inputs, data, dirs, names)
    requires p != [] && p !in dirs && p !in names && (Parent(p) == [] || Parent(p) in dirs)
    ensures var n := NodeFor(inputs[p], DataAt(data, p));
            Create(t, p, n).Ok? && Holds(Create(t, p, n).value, inputs, data, dirs, names + {p})
  {
    var n := NodeFor(inputs[p], DataAt(data, p));
    CreateSucceeds(t, p, n);
    forall q {
      CreateAdds(t, p, n, q);
    }
  }

  ghost predicate ByDepth(order: seq<Path>) {
    forall i, j :: 0 <= i < j < |order| ==> |order[i]| <= |order[j]| && order[i] != order[j]
  }

  lemma {:induction false} ShallowestExists(dirs: set<Path>)
    requires dirs != {}
    ensures exists d :: d in dirs && forall e :: e in dirs ==> |d| <= |e|
  {
    var d :| d in dirs;
    if dirs - {d} == {} {
      assert dirs == {d};
    } else {
      ShallowestExists(dirs - {d});
      var m :| m in dirs - {d} && forall e :: e in dirs - {d} ==> |m| <= |e|;
      assert forall e :: e in dirs ==> e == d || e in dirs - {d};
      if |d| <= |m| {
        assert forall e :: e in dirs ==> |d| <= |e|;
      } else {
        assert forall e :: e in dirs ==> |m| <= |e|;
      }
    }
  }

  /** `sorted(dirs, key=depth)`; the order among equals plays no part. */
  method SortByDepth(dirs: set<Path>) returns (order: seq<Path>)
    ensures ByDepth(order) && forall p :: p in order <==> p in dirs
  {
    order := [];
    var todo := dirs;
    while todo != {}
      invariant todo <= dirs && ByDepth(order)
      invariant forall p :: p in order <==> p in dirs - todo
      invariant forall i, e :: 0 <= i < |order| && e in todo ==> |order[i]| <= |e|
      decreases todo
    {
      ShallowestExists(todo);
      var d :| d in todo && forall e :: e in todo ==> |d| <= |e|;
      assert d !in order;
      assert forall i :: 0 <= i < |order| ==> order[i] in order;
      order := order + [d];
      todo := todo - {d};
    }
  }

  /**
    * The `mkdir` loop and the leaf loop of `stage`. No step fails exactly for the separate inventories:
    * each parent is already there, each name is free, and no step leads through a link or a file. The
    * finished tree holds the inventory and its directories, and nothing else.
    */
  method Stage(inputs: Inputs, names: seq<Path>, directories: set<Path>, data: map<Path, seq<Byte>>)
    returns (r: Result<Node, Fault>)
    requires forall p :: p in names <==> p in inputs
    requires forall i, j :: 0 <= i < j < |names| ==> names[i] != names[j]
    requires directories == Parents(inputs) && [] !in inputs
    ensures r.Ok? <==> Separate(inputs)
    ensures r.Ok? ==> Holds(r.value, inputs, data, Parents(inputs), inputs.Keys)
  {
    var tree := MakeDirectories(directories, inputs, data);
    ghost var put: set<Path> := {};
    for i := 0 to |names|
      invariant forall p :: p in put <==> p in names[..i]
      invariant put <= inputs.Keys && put !! directories
      invariant Holds(tree, inputs, data, directories, put)
    {
      var p := names[i];
      var n := NodeFor(inputs[p], DataAt(data, p));
      assert names[..i + 1] == names[..i] + [p];
      LeafTurn(tree, inputs, data, directories, put, p);
      var next := Create(tree, p, n);
      if next.Err? {
        return Err(next.error);
      }
      tree := next.value;
      put := put + {p};
    }
    assert names[..|names|] == names;
    assert put == inputs.Keys;
    return Ok(tree);
  }

  lemma LeafTurn(t: Node, inputs: Inputs, data: map<Path, seq<Byte>>, directories: set<Path>, put: set<Path>, p: Path)
    requires directories == Parents(inputs) && [] !in inputs && put <= inputs.Keys && Holds(t, inputs, data, directories, put)
    requires p in inputs && p !in put
    ensures var next := Create(t, p, NodeFor(inputs[p], DataAt(data, p)));
            (next.Ok? <==> p !in directories) && (next.Ok? ==> Holds(next.value, inputs, data, directories, put + {p}))
  {
    if |p| > 1 {
      ParentsAreClosed(inputs, p);
    }
    if p !in directories {
      HoldsLeaf(t, inputs, data, directories, put, p);
    } else {
      CreateSucceeds(t, p, NodeFor(inputs[p], DataAt(data, p)));
    }
  }

  /** The `mkdir` loop: shallow directories first, so that none ever fails. */
  method MakeDirectories(directories: set<Path>, ghost inputs: Inputs, ghost data: map<Path, seq<Byte>>) returns (tree: Node)
    requires directories == Parents(inputs)
    ensures Holds(tree, inputs, data, directories, {})
  {
    tree := Directory(map[]);
    var order := SortByDepth(directories);
    ghost var made: set<Path> := {};
    assert Holds(tree, inputs, data, {}, {});
    for i := 0 to |order|
      invariant forall p :: p in made <==> p in order[..i]
      invariant Holds(tree, inputs, data, made, {})
    {
      DirectoryReady(inputs, order, i);
      HoldsDirectory(tree, inputs, data, made, order[i]);
      assert order[..i + 1] == order[..i] + [order[i]];
      var next := Create(tree, order[i], Directory(map[]));
      tree := next.value;
      made := made + {order[i]};
    }
    assert order[..|order|] == order;
    assert made == directories;
  }

  /** In depth order a directory's parent comes before it. */
  lemma DirectoryReady(inputs: Inputs, order: seq<Path>, i: nat)
    requires ByDepth(order) && i < |order| && forall p :: p in order <==> p in Parents(inputs)
    ensures order[i] != [] && order[i] !in order[..i]
    ensures Parent(order[i]) == [] || Parent(order[i]) in order[..i]
  {
    assert order[i] in order;
    if |order[i]| > 1 {
      ParentsAreClosed(inputs, order[i]);
      var j :| 0 <= j < |order| && order[j] == Parent(order[i]);
      assert j < i;
    }
  }

  // Walking the tree back.

  const MAX_ENTRIES := 20000
  const MAX_VISITS := 3 * MAX_ENTRIES
  const MAX_ARTIFACT := 128 * 1024 * 1024

  /** Every path of the tree below its root. */
  ghost function NodePaths(t: Node): set<Path> {
    if !t.Directory? then {}
    else set k, q | k in t.entries && q in {[]} + NodePaths(t.entries[k]) :: [k] + q
  }

  lemma {:induction false} NodePathsSeen(t: Node, q: Path)
    ensures q in NodePaths(t) <==> q != [] && View(t, q).Some?
    decreases |q|
  {
    if q != [] {
      assert q == [q[0]] + q[1..];
      if t.Directory? && q[0] in t.entries {
        NodePathsSeen(t.entries[q[0]], q[1..]);
        if q in NodePaths(t) {
          var k, rest :| k in t.entries && rest in {[]} + NodePaths(t.entries[k]) && q == [k] + rest;
          assert k == q[0] && rest == q[1..];
        }
      }
    }
  }

  ghost predicate LeafAt(t: Node, q: Path) {
    View(t, q).Some? && View(t, q).value.Leaf? && !View(t, q).value.node.Directory?
  }

  /** The record `inventory_staged` keeps for a leaf; a special file is refused, so its record is of no account. */
  function ItemOf(n: Node, hash: seq<Byte> -> string): Item
    requires !n.Directory?
  {
    match n
    case Regular(data) => File(hash(data), |data|)
    case Link(target) => Symlink(target)
    case Special => Symlink("")
  }

  ghost function LeafPaths(t: Node, prefix: Path): set<Path> {
    set q | q in NodePaths(t) && LeafAt(t, q) :: prefix + q
  }

  /** The leaves of `t`, each under its full path. */
  ghost function Listing(t: Node, prefix: Path, hash: seq<Byte> -> string): map<Path, Item> {
    map p | p in LeafPaths(t, prefix) :: ItemOf(View(t, p[|prefix|..]).value.node, hash)
  }

  /** A test on a full path and what it holds, which a walk applies to everything it meets. */
  type Check = (Path, Shape) -> bool

  ghost predicate Refused(refuses: Check, t: Node, prefix: Path, q: Path) {
    View(t, q).Some? && refuses(prefix + q, View(t, q).value)
  }

  ghost predicate Refusable(refuses: Check, t: Node, prefix: Path) {
    exists q :: q in NodePaths(t) && Refused(refuses, t, prefix, q)
  }

  /** `inventory_staged` refuses names that the name check does not accept, files beyond the artifact limit, and special files. */
  function InventoryCheck(accepts: string -> bool): Check {
    (p, shape) => !accepts(Join(p)) || FileBeyond(shape, MAX_ARTIFACT) || SpecialFile(shape)
  }

  lemma InventoryCheckMeans(accepts: string -> bool, p: Path, shape: Shape)
    ensures InventoryCheck(accepts)(p, shape) <==> !accepts(Join(p)) || FileBeyond(shape, MAX_ARTIFACT) || SpecialFile(shape)
  {
  }

  predicate SpecialFile(shape: Shape) {
    shape.Leaf? && shape.node.Special?
  }

  predicate FileBeyond(shape: Shape, limit: nat) {
    shape.Leaf? && shape.node.Regular? && |shape.node.data| > limit
  }

  datatype WalkFault = VisitLimit | BadName | TooLarge | EntryType

  /** The part of a directory already scanned. */
  ghost function Part(t: Node, names: set<string>): Node
    requires t.Directory?
  {
    Directory(map k | k in t.entries && k in names :: t.entries[k])
  }

  ghost function Below(k: string, t: Node): set<Path> {
    set q | q in {[]} + NodePaths(t) :: [k] + q
  }

  /** Scanning one more entry adds that entry and everything below it. */
  lemma PartGrows(t: Node, names: set<string>, k: string)
    requires t.Directory? && k in t.entries && k !in names
    ensures NodePaths(Part(t, names + {k})) == NodePaths(Part(t, names)) + Below(k, t.entries[k])
    ensures NodePaths(Part(t, names)) !! Below(k, t.entries[k])
    ensures |NodePaths(Part(t, names + {k}))| == |NodePaths(Part(t, names))| + 1 + |NodePaths(t.entries[k])|
  {
    var more, less, below := NodePaths(Part(t, names + {k})), NodePaths(Part(t, names)), Below(k, t.entries[k]);
    forall p
      ensures p in more <==> p in less || p in below
      ensures !(p in less && p in below)
    {
      PartGrowsAt(t, names, k, p);
    }
    BelowSize(k, t.entries[k]);
  }

  lemma PartGrowsAt(t: Node, names: set<string>, k: string, p: Path)
    requires t.Directory? && k in t.entries && k !in names
    ensures p in NodePaths(Part(t, names + {k})) <==> p in NodePaths(Part(t, names)) || p in Below(k, t.entries[k])
    ensures !(p in NodePaths(Part(t, names)) && p in Below(k, t.entries[k]))
  {
    NodePathsSeen(Part(t, names + {k}), p);
    NodePathsSeen(Part(t, names), p);
    if p != [] {
      assert p == [p[0]] + p[1..];
      NodePathsSeen(t.entries[k], p[1..]);
    }
  }

  lemma BelowSize(k: string, t: Node)
    ensures |Below(k, t)| == 1 + |NodePaths(t)|
  {
    var all := {[]} + NodePaths(t);
    NodePathsSeen(t, []);
    assert |all| == 1 + |NodePaths(t)|;
    PrefixedSize(k, all);
  }

  lemma {:induction false} PrefixedSize(k: string, s: set<Path>)
    ensures |set q | q in s :: [k] + q| == |s|
  {
    if s != {} {
      var x :| x in s;
      PrefixedSize(k, s - {x});
      var smaller := set q | q in s - {x} :: [k] + q;
      assert (set q | q in s :: [k] + q) == smaller + {[k] + x};
      assert forall y :: ([k] + y)[1..] == y;
    }
  }

  /** What scanning entry `k` contributes to the listing. */
  ghost function EntryListing(t: Node, prefix: Path, k: string, hash: seq<Byte> -> string): map<Path, Item>
    requires t.Directory? && k in t.entries
  {
    var n := t.entries[k];
    if n.Directory? then Listing(n, prefix + [k], hash) else map[prefix + [k] := ItemOf(n, hash)]
  }

  lemma {:induction false} ListingGrows(t: Node, names: set<string>, k: string, prefix: Path, hash: seq<Byte> -> string)
    requires t.Directory? && k in t.entries && k !in names
    ensures Listing(Part(t, names + {k}), prefix, hash)
            == Listing(Part(t, names), prefix, hash) + EntryListing(t, prefix, k, hash)
  {
    var more, less, entry := Part(t, names + {k}), Part(t, names), EntryListing(t, prefix, k, hash);
    var grown, before := Listing(more, prefix, hash), Listing(less, prefix, hash);
    forall p
      ensures p in grown <==> p in before || p in entry
      ensures p in grown ==> grown[p] == if p in entry then entry[p] else before[p]
    {
      GrowsAt(t, names, k, prefix, hash, p);
    }
    SumOf(grown, before, entry);
  }

  lemma SumOf(grown: Inputs, before: Inputs, entry: Inputs)
    requires forall p :: p in grown <==> p in before || p in entry
    requires forall p :: p in grown ==> grown[p] == if p in entry then entry[p] else before[p]
    ensures grown == before + entry
  {
  }

  lemma GrowsAt(t: Node, names: set<string>, k: string, prefix: Path, hash: seq<Byte> -> string, p: Path)
    requires t.Directory? && k in t.entries && k !in names
    ensures var more, less, entry := Part(t, names + {k}), Part(t, names), EntryListing(t, prefix, k, hash);
            && (p in LeafPaths(more, prefix) <==> p in LeafPaths(less, prefix) || p in entry)
            && (p in LeafPaths(less, prefix) ==> p !in entry && View(more, p[|prefix|..]) == View(less, p[|prefix|..]))
            && (p in entry ==> LeafAt(more, p[|prefix|..]) && entry[p] == ItemOf(View(more, p[|prefix|..]).value.node, hash))
  {
    InListing(Part(t, names + {k}), prefix, p);
    InListing(Part(t, names), prefix, p);
    InEntryListing(t, prefix, k, hash, p);
  }

  lemma InListing(t: Node, prefix: Path, p: Path)
    ensures p in LeafPaths(t, prefix) <==> prefix <= p && p != prefix && LeafAt(t, p[|prefix|..])
  {
    if prefix <= p {
      NodePathsSeen(t, p[|prefix|..]);
      assert p == prefix + p[|prefix|..];
    }
    if p in LeafPaths(t, prefix) {
      var q :| q in NodePaths(t) && LeafAt(t, q) && p == prefix + q;
      NodePathsSeen(t, q);
      assert p[|prefix|..] == q;
    }
  }

  lemma InEntryListing(t: Node, prefix: Path, k: string, hash: seq<Byte> -> string, p: Path)
    requires t.Directory? && k in t.entries
    ensures p in EntryListing(t, prefix, k, hash)
            <==> prefix <= p && p != prefix && p[|prefix|] == k && LeafAt(t, p[|prefix|..])
    ensures p in EntryListing(t, prefix, k, hash)
            ==> EntryListing(t, prefix, k, hash)[p] == ItemOf(View(t, p[|prefix|..]).value.node, hash)
  {
    var n := t.entries[k];
    if prefix <= p && p != prefix && p[|prefix|] == k {
      assert p[|prefix|..][0] == k && p[|prefix|..][1..] == p[|prefix| + 1..];
      assert prefix + [k] <= p;
      InListing(n, prefix + [k], p);
      assert View(t, p[|prefix|..]) == View(n, p[|prefix + [k]|..]);
      assert p == prefix + [k] <==> p[|prefix + [k]|..] == [];
    } else {
      assert prefix + [k] <= p ==> p[|prefix|] == (prefix + [k])[|prefix|];
      InListing(n, prefix + [k], p);
    }
  }

  lemma EmptyPart(refuses: Check, t: Node, prefix: Path, hash: seq<Byte> -> string)
    requires t.Directory?
    ensures NodePaths(Part(t, {})) == {} && Listing(Part(t, {}), prefix, hash) == map[] && !Refusable(refuses, Part(t, {}), prefix)
  {
  }

  /** An entry is refused as part of the whole directory exactly as it is on its own. */
  lemma RefusedBelow(refuses: Check, t: Node, prefix: Path, k: string, q: Path)
    requires t.Directory? && k in t.entries
    ensures q != [] ==> (Refused(refuses, t, prefix, [k] + q) <==> Refused(refuses, t.entries[k], prefix + [k], q))
  {
    assert prefix + ([k] + q) == prefix + [k] + q;
    assert ([k] + q)[1..] == q;
  }

  lemma EntryStops(refuses: Check, t: Node, prefix: Path, done: set<string>, k: string)
    requires t.Directory? && k in t.entries && k !in done
    ensures var n := t.entries[k];
            Refused(refuses, t, prefix, [k]) || Refusable(refuses, n, prefix + [k]) ==> Refusable(refuses, t, prefix)
    ensures |NodePaths(Part(t, done))| + 1 + |NodePaths(t.entries[k])| <= |NodePaths(t)|
  {
    var n := t.entries[k];
    assert [k] + [] == [k] && [k] in NodePaths(t);
    if Refusable(refuses, n, prefix + [k]) {
      var q :| q in NodePaths(n) && Refused(refuses, n, prefix + [k], q);
      NodePathsSeen(n, q);
      RefusedBelow(refuses, t, prefix, k, q);
      assert [k] + q in NodePaths(t);
    }
    PartGrows(t, done, k);
    assert NodePaths(Part(t, done + {k})) <= NodePaths(t) by {
      forall p | p in NodePaths(Part(t, done + {k}))
        ensures p in NodePaths(t)
      {
        NodePathsSeen(Part(t, done + {k}), p);
        NodePathsSeen(t, p);
      }
    }
    SubsetSize(NodePaths(Part(t, done + {k})), NodePaths(t));
  }

  lemma SubsetSize(a: set<Path>, b: set<Path>)
    requires a <= b
    ensures |a| <= |b|
  {
    assert b == a + (b - a);
  }

  lemma EntryPasses(refuses: Check, t: Node, prefix: Path, done: set<string>, k: string, hash: seq<Byte> -> string)
    requires t.Directory? && k in t.entries && k !in done
    requires !Refusable(refuses, Part(t, done), prefix)
    requires !Refused(refuses, t, prefix, [k]) && !Refusable(refuses, t.entries[k], prefix + [k])
    ensures !Refusable(refuses, Part(t, done + {k}), prefix)
    ensures |NodePaths(Part(t, done + {k}))| == |NodePaths(Part(t, done))| + 1 + |NodePaths(t.entries[k])|
    ensures Listing(Part(t, done + {k}), prefix, hash)
            == Listing(Part(t, done), prefix, hash) + EntryListing(t, prefix, k, hash)
  {
    PartGrows(t, done, k);
    ListingGrows(t, done, k, prefix, hash);
    var more := Part(t, done + {k});
    forall q | q in NodePaths(more)
      ensures !Refused(refuses, more, prefix, q)
    {
      PassesAt(refuses, t, prefix, done, k, q);
    }
  }

  lemma PassesAt(refuses: Check, t: Node, prefix: Path, done: set<string>, k: string, q: Path)
    requires t.Directory? && k in t.entries && k !in done && q in NodePaths(Part(t, done + {k}))
    requires !Refusable(refuses, Part(t, done), prefix)
    requires !Refused(refuses, t, prefix, [k]) && !Refusable(refuses, t.entries[k], prefix + [k])
    ensures !Refused(refuses, Part(t, done + {k}), prefix, q)
  {
    var more, less := Part(t, done + {k}), Part(t, done);
    NodePathsSeen(more, q);
    assert q == [q[0]] + q[1..];
    if q[0] != k {
      assert View(more, q) == View(less, q);
      NodePathsSeen(less, q);
    } else if q[1..] == [] {
      assert q == [k];
      assert View(more, q) == View(t, q);
    } else {
      NodePathsSeen(t.entries[k], q[1..]);
      RefusedBelow(refuses, more, prefix, k, q[1..]);
    }
  }

  lemma WholePart(t: Node)
    requires t.Directory?
    ensures Part(t, t.entries.Keys) == t
  {
  }

  lemma MergeAssociates(a: map<Path, Item>, b: map<Path, Item>, c: map<Path, Item>)
    ensures a + b + c == a + (b + c)
  {
  }

  /** The counters and the result dictionary that the recursive `walk` closure updates. */
  class Walker {
    const hash: seq<Byte> -> string
    const accepts: string -> bool
    var result: map<Path, Item>
    var count: nat

    constructor (hash: seq<Byte> -> string, accepts: string -> bool)
      ensures this.hash == hash && this.accepts == accepts && result == map[] && count == 0
    {
      this.hash, this.accepts, result, count := hash, accepts, map[], 0;
    }

    /**
      * The scan order is arbitrary. The walk succeeds exactly when no path is refused and the total
      * number of entries, directories included, stays within the visit limit; it then has added
      * every leaf under its full path.
      */
    method Walk(t: Node, prefix: Path) returns (fault: Option<WalkFault>)
      requires t.Directory? && count <= MAX_VISITS
      modifies this`result, this`count
      ensures fault.None? <==> !Refusable(InventoryCheck(accepts), t, prefix) && old(count) + |NodePaths(t)| <= MAX_VISITS
      ensures fault.None? ==> count == old(count) + |NodePaths(t)|
      ensures fault.None? ==> result == old(result) + Listing(t, prefix, hash)
      decreases t
    {
      var todo := t.entries.Keys;
      ghost var done: set<string> := {};
      ghost var listed: map<Path, Item> := map[];
      EmptyPart(InventoryCheck(accepts), t, prefix, hash);
      while todo != {}
        invariant todo <= t.entries.Keys && done == t.entries.Keys - todo
        invariant count == old(count) + |NodePaths(Part(t, done))| && count <= MAX_VISITS
        invariant listed == Listing(Part(t, done), prefix, hash)
        invariant result == old(result) + listed
        invariant !Refusable(InventoryCheck(accepts), Part(t, done), prefix)
        decreases todo
      {
        var name :| name in todo;
        fault := Entry(t, prefix, name);
        if fault.Some? {
          EntryStops(InventoryCheck(accepts), t, prefix, done, name);
          return;
        }
        EntryPasses(InventoryCheck(accepts), t, prefix, done, name, hash);
        MergeAssociates(old(result), listed, EntryListing(t, prefix, name, hash));
        listed := Listing(Part(t, done + {name}), prefix, hash);
        assert t.entries.Keys - (todo - {name}) == done + {name};
        todo := todo - {name};
        done := done + {name};
      }
      assert done == t.entries.Keys;
      WholePart(t);
      fault := None;
    }

    /** One turn of the scan loop. */
    method Entry(t: Node, prefix: Path, name: string) returns (fault: Option<WalkFault>)
      requires t.Directory? && name in t.entries && count <= MAX_VISITS
      modifies this`result, this`count
      ensures var n := t.entries[name];
              fault.None? <==>
                !Refused(InventoryCheck(accepts), t, prefix, [name]) && !Refusable(InventoryCheck(accepts), n, prefix + [name])
                               && old(count) + 1 + |NodePaths(n)| <= MAX_VISITS
      ensures fault.None? ==> count == old(count) + 1 + |NodePaths(t.entries[name])|
      ensures fault.None? ==> result == old(result) + EntryListing(t, prefix, name, hash)
      decreases t, 0
    {
      var relative := prefix + [name];
      var n := t.entries[name];
      assert [name][1..] == [] && View(t, [name]) == Some(ShapeOf(n));
      InventoryCheckMeans(accepts, relative, ShapeOf(n));
      if !accepts(Join(relative)) {
        return Some(BadName);
      }
      count := count + 1;
      if count > MAX_VISITS {
        return Some(VisitLimit);
      }
      match n
      case Directory(_) =>
        fault := Walk(n, relative);
      case Link(_) =>
        result := result[relative := ItemOf(n, hash)];
        fault := None;
      case Special =>
        return Some(EntryType);
      case Regular(data) =>
        if |data| > MAX_ARTIFACT {
          return Some(TooLarge);
        }
        result := result[relative := ItemOf(n, hash)];
        fault := None;
    }
  }

  /** `inventory_staged`: the listing of the whole tree, or the reason it was refused. */
  method InventoryStaged(t: Node, hash: seq<Byte> -> string, accepts: string -> bool) returns (r: Result<Inputs, WalkFault>)
    requires t.Directory?
    ensures r.Ok? <==> !Refusable(InventoryCheck(accepts), t, []) && |NodePaths(t)| <= MAX_VISITS
    ensures r.Ok? ==> r.value == Listing(t, [], hash)
  {
    var walker := new Walker(hash, accepts);
    var fault := walker.Walk(t, []);
    if fault.Some? {
      return Err(fault.value);
    }
    ghost var listing := Listing(t, [], hash);
    assert map[] + listing == listing;
    return Ok(walker.result);
  }
}
