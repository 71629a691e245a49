/** What the two inventory walks accept, written out: names, leaves, limits, and the listing they return. */
module InventoryRules {
  import opened Outcome
  import opened Text
  import opened RelativePath
  import opened LinkResolution
  import opened StagedTree
  import opened Staging
  import opened CurrentInputs
  import opened Snapshot

  // The rules.

  /** Plain components between single slashes. */
  ghost predicate PlainPieces(text: string, parts: seq<string>) {
    && parts != [] && text == JoinWith('/', parts)
    && forall p :: p in parts ==> p != "" && p != "." && p != ".." && '/' !in p
  }

  ghost predicate GoodText(text: string) {
    && |text| <= 4096 && '\0' !in text && '\\' !in text
    && (text == "." || exists parts :: PlainPieces(text, parts))
  }

  /** A path below one of the ten roots with none of the three names that are passed over. */
  ghost predicate OnSight(q: Path) {
    && q != [] && (IsRootFile(q[0]) || q[0] == "packages" || q[0] == "scripts" || q[0] == "node_modules")
    && forall i :: 1 <= i < |q| ==> q[i] != ".git" && q[i] != "__pycache__" && q[i] != ".DS_Store"
  }

  /** A file of at most 16 mebibytes, or a relative link that, taken as text, stays below the root. */
  ghost predicate GoodSource(q: Path, n: Node)
    requires q != []
  {
    match n
    case Directory(_) => true
    case Special => false
    case Regular(data) => |data| <= 16777216
    case Link(target) =>
      && 1 <= |target| <= 4096 && target[0] != '/' && '\0' !in target && '\\' !in target
      && var text := Norm(q[..|q| - 1] + Parts(target));
         text == [] || text[0] != ".."
  }

  /** The record of a leaf. */
  ghost predicate Records(item: Item, n: Node, hash: seq<Byte> -> string) {
    match n
    case Directory(_) => false
    case Special => true
    case Regular(data) => item == File(hash(data), |data|)
    case Link(target) => item == Symlink(target)
  }

  ghost predicate IsLeaf(t: Node, q: Path) {
    View(t, q).Some? && View(t, q).value.Leaf? && !View(t, q).value.node.Directory?
  }

  /** The roots are as they should be; `paths` are all on sight, few enough and good; `found` are the leaves, within the limits. */
  ghost predicate Inspected(src: Node, hash: seq<Byte> -> string, paths: set<Path>, found: Inputs) {
    && src.Directory?
    && (forall k :: IsRootFile(k) ==> k in src.entries && src.entries[k].Regular?)
    && (forall k :: k == "packages" || k == "scripts" || k == "node_modules" ==> k in src.entries && src.entries[k].Directory?)
    && (forall q :: q in paths <==> OnSight(q) && View(src, q).Some?) && |paths| <= 60010
    && (forall q :: q in paths ==> q != [] && GoodText(Join(q)) && (IsLeaf(src, q) ==> GoodSource(q, View(src, q).value.node)))
    && (forall p :: p in found <==> OnSight(p) && IsLeaf(src, p))
    && (forall p :: p in found ==> IsLeaf(src, p) && Records(found[p], View(src, p).value.node, hash))
    && |found| <= 20000 && BytesIn(found) <= 268435456
  }

  /** The same for a staged tree, where all is on sight and files may have 128 mebibytes. */
  ghost predicate Surveyed(t: Node, hash: seq<Byte> -> string, paths: set<Path>, found: Inputs) {
    && (forall q :: q in paths <==> q != [] && View(t, q).Some?) && |paths| <= 60000
    && (forall q :: q in paths ==> GoodText(Join(q)))
    && (forall q :: q in paths && IsLeaf(t, q) ==> GoodStaged(View(t, q).value.node))
    && (forall p :: p in found <==> p != [] && IsLeaf(t, p))
    && (forall p :: p in found ==> IsLeaf(t, p) && Records(found[p], View(t, p).value.node, hash))
  }

  ghost predicate GoodStaged(n: Node) {
    match n
    case Directory(_) => true
    case Special => false
    case Regular(data) => |data| <= 134217728
    case Link(_) => true
  }

  // The walks follow them.

  lemma TextMeans(text: string)
    ensures IsRelativeName(text) <==> GoodText(text)
  {
    RelativeNameMeans(text);
    JoinOfSplit('/', text);
    if AllPlain(Split(text)) {
      assert PlainPieces(text, Split(text));
    }
    if parts :| PlainPieces(text, parts) {
      SplitOfJoin('/', parts);
      assert forall i :: 0 <= i < |parts| ==> parts[i] in parts;
    }
  }

  lemma SightMeans(q: Path)
    ensures InView(q) <==> OnSight(q)
  {
    if q != [] {
      RootFilesMean(q[0]);
      PassedOver(q[1..]);
      assert forall i :: 1 <= i < |q| ==> q[i] == q[1..][i - 1];
    }
  }

  lemma PassedOver(q: Path)
    ensures NoneSkipped(q) <==> forall i :: 0 <= i < |q| ==> q[i] != ".git" && q[i] != "__pycache__" && q[i] != ".DS_Store"
  {
  }

  lemma LinkMeans(q: Path, target: string)
    requires q != []
    ensures LinkFits(q, target) <==> GoodSource(q, Link(target))
  {
    ShapeMeans(Symlink(target));
  }

  lemma LeafMeans(q: Path, n: Node)
    requires q != []
    ensures LeafFits(q, n) <==> GoodSource(q, n)
  {
    if n.Link? {
      LinkMeans(q, n.target);
    }
  }

  lemma LeafIsRecorded(item: Item, n: Node, hash: seq<Byte> -> string)
    requires !n.Directory?
    ensures Records(item, n, hash) <==> n.Special? || item == ItemOf(n, hash)
  {
  }

  /** Which paths a listing has, and what it says of them. */
  lemma ListingMeans(t: Node, hash: seq<Byte> -> string, p: Path)
    ensures p in Listing(t, [], hash) <==> p != [] && IsLeaf(t, p)
    ensures p in Listing(t, [], hash) ==> Records(Listing(t, [], hash)[p], View(t, p).value.node, hash)
  {
    InListing(t, [], p);
    assert p[0..] == p;
    if p in Listing(t, [], hash) {
      LeafIsRecorded(Listing(t, [], hash)[p], View(t, p).value.node, hash);
    }
  }

  /** Without special files the records leave no choice. */
  lemma SameListing(t: Node, hash: seq<Byte> -> string, found: Inputs)
    requires forall p :: p in found <==> p != [] && IsLeaf(t, p)
    requires forall p :: p in found ==> IsLeaf(t, p) && !View(t, p).value.node.Special? && Records(found[p], View(t, p).value.node, hash)
    ensures found == Listing(t, [], hash)
  {
    var listing := Listing(t, [], hash);
    forall p
      ensures p in found <==> p in listing
      ensures p in found ==> found[p] == listing[p]
    {
      ListingMeans(t, hash, p);
      if p in found {
        LeafIsRecorded(found[p], View(t, p).value.node, hash);
        LeafIsRecorded(listing[p], View(t, p).value.node, hash);
      }
    }
  }

  // The staged walk.

  lemma StagedRefusal(t: Node, q: Path)
    requires q != [] && View(t, q).Some?
    ensures !Refused(InventoryCheck(IsRelativeName), t, [], q)
            <==> GoodText(Join(q)) && (IsLeaf(t, q) ==> GoodStaged(View(t, q).value.node))
  {
    TextMeans(Join(q));
    assert [] + q == q;
    InventoryCheckMeans(IsRelativeName, q, View(t, q).value);
    ShapesAreProper(t, q);
  }

  /** What is seen at a path is a folder or a leaf that is no directory. */
  lemma {:induction false} ShapesAreProper(t: Node, q: Path)
    ensures View(t, q).Some? && View(t, q).value.Leaf? ==> IsLeaf(t, q)
    decreases |q|
  {
    if q != [] && t.Directory? && q[0] in t.entries {
      ShapesAreProper(t.entries[q[0]], q[1..]);
    }
  }

  lemma StagedRules(t: Node)
    ensures !Refusable(InventoryCheck(IsRelativeName), t, [])
            <==> forall q :: q in NodePaths(t) ==> GoodText(Join(q)) && (IsLeaf(t, q) ==> GoodStaged(View(t, q).value.node))
  {
    forall q | q in NodePaths(t)
      ensures Refused(InventoryCheck(IsRelativeName), t, [], q)
              <==> !(GoodText(Join(q)) && (IsLeaf(t, q) ==> GoodStaged(View(t, q).value.node)))
    {
      NodePathsSeen(t, q);
      StagedRefusal(t, q);
    }
  }

  lemma PathsMean(t: Node)
    ensures forall q :: q in NodePaths(t) <==> q != [] && View(t, q).Some?
  {
    forall q
      ensures q in NodePaths(t) <==> q != [] && View(t, q).Some?
    {
      NodePathsSeen(t, q);
    }
  }

  lemma SurveyFound(t: Node, hash: seq<Byte> -> string)
    requires !Refusable(InventoryCheck(IsRelativeName), t, []) && |NodePaths(t)| <= MAX_VISITS
    ensures Surveyed(t, hash, NodePaths(t), Listing(t, [], hash))
  {
    StagedRules(t);
    PathsMean(t);
    forall p
      ensures p in Listing(t, [], hash) <==> p != [] && IsLeaf(t, p)
      ensures p in Listing(t, [], hash) ==> Records(Listing(t, [], hash)[p], View(t, p).value.node, hash)
    {
      ListingMeans(t, hash, p);
    }
  }

  lemma SurveyPasses(t: Node, hash: seq<Byte> -> string, paths: set<Path>, found: Inputs)
    requires Surveyed(t, hash, paths, found)
    ensures !Refusable(InventoryCheck(IsRelativeName), t, []) && |NodePaths(t)| <= MAX_VISITS && found == Listing(t, [], hash)
  {
    PathsMean(t);
    assert paths == NodePaths(t);
    StagedRules(t);
    SameListing(t, hash, found);
  }

  /** `inventory_staged` succeeds, and returns `found`, exactly when a survey by the rules finds it. */
  lemma {:induction false} StagedRulesExactly(t: Node, hash: seq<Byte> -> string, found: Inputs)
    ensures !Refusable(InventoryCheck(IsRelativeName), t, []) && |NodePaths(t)| <= MAX_VISITS && found == Listing(t, [], hash)
            <==> exists paths :: Surveyed(t, hash, paths, found)
  {
    if !Refusable(InventoryCheck(IsRelativeName), t, []) && |NodePaths(t)| <= MAX_VISITS {
      SurveyFound(t, hash);
    }
    if paths :| Surveyed(t, hash, paths, found) {
      SurveyPasses(t, hash, paths, found);
    }
  }

  // The walk over the source.

  lemma SourceSees(src: Node, q: Path)
    requires src.Directory?
    ensures q in NodePaths(Selected(src)) <==> OnSight(q) && View(src, q).Some?
    ensures OnSight(q) ==> View(Selected(src), q) == View(src, q)
  {
    NodePathsSeen(Selected(src), q);
    SightMeans(q);
    if q != [] {
      SelectedView(src, q);
    }
  }

  lemma ShapeRefusal(q: Path, shape: Shape)
    requires q != [] && (shape.Leaf? ==> !shape.node.Directory?)
    ensures SourceCheck(NameFits, LeafFits)(q, shape)
            <==> !(GoodText(Join(q)) && (shape.Leaf? ==> GoodSource(q, shape.node)))
  {
    CheckMeans(NameFits, LeafFits, q, shape);
    TextMeans(Join(q));
    if shape.Leaf? {
      LeafMeans(q, shape.node);
    }
    assert NameFits(q) <==> IsRelativeName(Join(q));
  }

  lemma CheckMeans(nameFits: NameTest, leafFits: LeafTest, q: Path, shape: Shape)
    ensures SourceCheck(nameFits, leafFits)(q, shape) <==> !nameFits(q) || (shape.Leaf? && !leafFits(q, shape.node))
  {
  }

  lemma SourceRefusal(src: Node, q: Path)
    requires src.Directory? && OnSight(q) && View(src, q).Some?
    ensures !Refused(SourceCheck(NameFits, LeafFits), Selected(src), [], q)
            <==> GoodText(Join(q)) && (IsLeaf(src, q) ==> GoodSource(q, View(src, q).value.node))
  {
    SourceSees(src, q);
    ShapesAreProper(src, q);
    ShapeRefusal(q, View(src, q).value);
    RefusedAt(SourceCheck(NameFits, LeafFits), Selected(src), q);
  }

  lemma RefusedAt(check: Check, t: Node, q: Path)
    requires View(t, q).Some?
    ensures Refused(check, t, [], q) <==> check(q, View(t, q).value)
  {
    assert [] + q == q;
  }

  lemma SourceRules(src: Node)
    requires src.Directory?
    ensures !Refusable(SourceCheck(NameFits, LeafFits), Selected(src), [])
            <==> forall q :: q in NodePaths(Selected(src)) ==>
                   q != [] && GoodText(Join(q)) && (IsLeaf(src, q) ==> GoodSource(q, View(src, q).value.node))
  {
    forall q | q in NodePaths(Selected(src))
      ensures q != []
      ensures Refused(SourceCheck(NameFits, LeafFits), Selected(src), [], q)
              <==> !(GoodText(Join(q)) && (IsLeaf(src, q) ==> GoodSource(q, View(src, q).value.node)))
    {
      SourceSees(src, q);
      SourceRefusal(src, q);
    }
  }

  lemma RootsMean(src: Node)
    requires src.Directory?
    ensures RootsThere(src, ROOT_FILES, ROOT_FOLDERS)
            <==> && (forall k :: IsRootFile(k) ==> k in src.entries && src.entries[k].Regular?)
                 && (forall k :: k == "packages" || k == "scripts" || k == "node_modules" ==> k in src.entries && src.entries[k].Directory?)
  {
    forall k
      ensures k in ROOT_FILES <==> IsRootFile(k)
      ensures k in ROOT_FOLDERS <==> k == "packages" || k == "scripts" || k == "node_modules"
    {
      RootFilesMean(k);
    }
  }

  lemma SelectedListing(src: Node, hash: seq<Byte> -> string, p: Path)
    requires src.Directory?
    ensures p in Listing(Selected(src), [], hash) <==> OnSight(p) && IsLeaf(src, p)
    ensures p in Listing(Selected(src), [], hash) ==> Records(Listing(Selected(src), [], hash)[p], View(src, p).value.node, hash)
  {
    ListingMeans(Selected(src), hash, p);
    SourceSees(src, p);
    NodePathsSeen(Selected(src), p);
  }

  lemma SourcePaths(src: Node)
    requires src.Directory?
    ensures forall q :: q in NodePaths(Selected(src)) <==> OnSight(q) && View(src, q).Some?
  {
    forall q
      ensures q in NodePaths(Selected(src)) <==> OnSight(q) && View(src, q).Some?
    {
      SourceSees(src, q);
    }
  }

  lemma InspectionFound(src: Node, hash: seq<Byte> -> string)
    requires SourcePasses(src, hash)
    ensures Inspected(src, hash, NodePaths(Selected(src)), Listing(Selected(src), [], hash))
  {
    RootsMean(src);
    SourceRules(src);
    SourcePaths(src);
    SourceCounted(src, hash);
    forall p
      ensures p in Listing(Selected(src), [], hash) <==> OnSight(p) && IsLeaf(src, p)
      ensures p in Listing(Selected(src), [], hash) ==> Records(Listing(Selected(src), [], hash)[p], View(src, p).value.node, hash)
    {
      SelectedListing(src, hash, p);
    }
  }

  lemma InspectionLists(src: Node, hash: seq<Byte> -> string, paths: set<Path>, found: Inputs)
    requires Inspected(src, hash, paths, found)
    ensures found == Listing(Selected(src), [], hash)
  {
    var sel := Selected(src);
    forall p
      ensures p in found <==> p != [] && IsLeaf(sel, p)
      ensures p in found ==> IsLeaf(sel, p) && !View(sel, p).value.node.Special? && Records(found[p], View(sel, p).value.node, hash)
    {
      InspectedAt(src, hash, paths, found, p);
    }
    SameListing(sel, hash, found);
  }

  lemma InspectedAt(src: Node, hash: seq<Byte> -> string, paths: set<Path>, found: Inputs, p: Path)
    requires Inspected(src, hash, paths, found)
    ensures var sel := Selected(src);
            && (p in found <==> p != [] && IsLeaf(sel, p))
            && (p in found ==> IsLeaf(sel, p) && !View(sel, p).value.node.Special? && Records(found[p], View(sel, p).value.node, hash))
  {
    SourceLeaf(src, p);
    if p in found {
      assert p in paths;
      assert GoodSource(p, View(src, p).value.node);
    }
  }

  lemma SourceLeaf(src: Node, p: Path)
    requires src.Directory?
    ensures p != [] && IsLeaf(Selected(src), p) <==> OnSight(p) && IsLeaf(src, p)
    ensures OnSight(p) ==> View(Selected(src), p) == View(src, p)
  {
    SourceSees(src, p);
    NodePathsSeen(Selected(src), p);
  }

  lemma InspectionPasses(src: Node, hash: seq<Byte> -> string, paths: set<Path>, found: Inputs)
    requires Inspected(src, hash, paths, found)
    ensures SourcePasses(src, hash)
  {
    InspectionLists(src, hash, paths, found);
    RootsMean(src);
    SourcePaths(src);
    assert paths == NodePaths(Selected(src));
    SourceRules(src);
    SourceCounted(src, hash);
  }

  /** `current_inputs` succeeds, and returns `found`, exactly when an inspection by the rules finds it. */
  lemma {:induction false} SourceRulesExactly(src: Node, hash: seq<Byte> -> string, found: Inputs)
    requires src.Directory?
    ensures SourcePasses(src, hash) && found == Listing(Selected(src), [], hash) <==> exists paths :: Inspected(src, hash, paths, found)
  {
    if SourcePasses(src, hash) {
      InspectionFound(src, hash);
    }
    if paths :| Inspected(src, hash, paths, found) {
      InspectionLists(src, hash, paths, found);
      InspectionPasses(src, hash, paths, found);
    }
  }
}
