/**
  * `check_snapshot`, `stage` and `verify_staged` together: from a source tree and its manifest to a
  * staged tree that is checked again.
  */
module Snapshot {
  import opened Outcome
  import opened RelativePath
  import opened LinkResolution
  import opened StagedTree
  import opened Staging
  import opened BoundedCopy
  import opened CurrentInputs

  /** The manifest is admissible and is what the walk over the source finds. */
  ghost predicate Matches(src: Node, entries: seq<Entry>, required: set<Path>, hash: seq<Byte> -> string) {
    && Admissible(entries, required) && SourcePasses(src, hash)
    && Listing(Selected(src), [], hash) == InputsOf(entries)
  }

  // What the walk can see.

  ghost predicate NoneSkipped(q: Path) {
    forall i :: 0 <= i < |q| ==> q[i] !in SKIPPED
  }

  lemma {:induction false} PrunedView(t: Node, q: Path)
    ensures View(Pruned(t), q) == if NoneSkipped(q) then View(t, q) else None
    decreases |q|
  {
    if q != [] && t.Directory? && q[0] in t.entries && q[0] !in SKIPPED {
      PrunedView(t.entries[q[0]], q[1..]);
      assert NoneSkipped(q) <==> NoneSkipped(q[1..]) by {
        assert forall i :: 0 < i < |q| ==> q[i] == q[1..][i - 1];
      }
    }
  }

  /** A path the walk can see: below a root, and nothing passed over on the way. */
  ghost predicate InView(q: Path) {
    q != [] && q[0] in ROOT_FILES + ROOT_FOLDERS && NoneSkipped(q[1..])
  }

  lemma SelectedView(src: Node, q: Path)
    requires src.Directory? && q != []
    ensures View(Selected(src), q) == if InView(q) then View(src, q) else None
  {
    if q[0] in src.entries && q[0] in ROOT_FILES + ROOT_FOLDERS {
      PrunedView(src.entries[q[0]], q[1..]);
    }
  }

  lemma {:induction false} PrunedSame(t: Node)
    requires forall q :: View(t, q).Some? ==> NoneSkipped(q)
    ensures Pruned(t) == t
    decreases t
  {
    if t.Directory? {
      forall k | k in t.entries
        ensures k !in SKIPPED && Pruned(t.entries[k]) == t.entries[k]
      {
        forall q | View(t.entries[k], q).Some?
          ensures NoneSkipped(q) && k !in SKIPPED
        {
          assert ([k] + q)[1..] == q && View(t, [k] + q).Some?;
          assert NoneSkipped([k] + q);
          assert forall i :: 0 <= i < |q| ==> q[i] == ([k] + q)[i + 1];
          assert ([k] + q)[0] == k;
        }
        assert View(t.entries[k], []).Some?;
        PrunedSame(t.entries[k]);
      }
      assert Pruned(t).entries == t.entries;
    }
  }

  /** A tree that is in view altogether is selected as it stands. */
  lemma SelectedSame(t: Node)
    requires t.Directory? && forall q :: q in NodePaths(t) ==> InView(q)
    ensures Selected(t) == t
  {
    forall k | k in t.entries
      ensures k in ROOT_FILES + ROOT_FOLDERS && Pruned(t.entries[k]) == t.entries[k]
    {
      forall q | View(t.entries[k], q).Some?
        ensures NoneSkipped(q) && k in ROOT_FILES + ROOT_FOLDERS
      {
        assert ([k] + q)[1..] == q && View(t, [k] + q).Some?;
        NodePathsSeen(t, [k] + q);
        assert InView([k] + q);
      }
      assert View(t.entries[k], []).Some?;
      PrunedSame(t.entries[k]);
    }
    assert Selected(t).entries == t.entries;
  }

  // How many paths.

  lemma {:induction false} DistinctCount(names: seq<string>)
    requires Distinct(names)
    ensures |Elements(names)| == |names|
  {
    if names != [] {
      var i := |names| - 1;
      PrefixGrows(names, i);
      assert names[..i + 1] == names;
      DistinctCount(names[..i]);
    }
  }

  lemma TenRoots()
    ensures |ROOT_FILES + ROOT_FOLDERS| == 10
  {
    RootsAreListed();
    DistinctCount(ROOTS);
  }

  /** The names of a matching manifest and their directories are paths of the selected source. */
  lemma InputsInSource(src: Node, inputs: Inputs, hash: seq<Byte> -> string, q: Path)
    requires src.Directory? && Listing(Selected(src), [], hash) == inputs && (q in inputs || q in Parents(inputs))
    ensures q in NodePaths(Selected(src)) && InView(q)
  {
    var sel := Selected(src);
    var p, k := q, |q|;
    if q !in inputs {
      p, k :| p in inputs && 0 < k < |p| && q == p[..k];
    }
    InListing(sel, [], p);
    assert p[0..] == p && p[..|p|] == p;
    PrefixSeen(sel, p, k);
    NodePathsSeen(sel, q);
    SelectedView(src, q);
  }

  lemma {:induction false} PrefixSeen(t: Node, p: Path, k: nat)
    requires View(t, p).Some? && k <= |p|
    ensures View(t, p[..k]).Some? && (k < |p| ==> View(t, p[..k]) == Some(Folder))
    decreases k
  {
    if k > 0 {
      assert p[..k][1..] == p[1..][..k - 1];
      PrefixSeen(t.entries[p[0]], p[1..], k - 1);
    }
  }

  lemma InputsCounted(src: Node, inputs: Inputs, hash: seq<Byte> -> string)
    requires src.Directory? && Listing(Selected(src), [], hash) == inputs && Separate(inputs)
    ensures |inputs| + |Parents(inputs)| <= |NodePaths(Selected(src))|
  {
    forall q | q in inputs.Keys + Parents(inputs)
      ensures q in NodePaths(Selected(src))
    {
      InputsInSource(src, inputs, hash, q);
    }
    SubsetSize(inputs.Keys + Parents(inputs), NodePaths(Selected(src)));
  }

  lemma SourceCounted(src: Node, hash: seq<Byte> -> string)
    requires src.Directory?
    ensures SourceContent(src, hash).paths <= MAX_VISITS <==> |NodePaths(Selected(src))| <= MAX_VISITS + 10
  {
    TenRoots();
  }

  /**
    * The walk over the source counts everything but the ten roots, so a matching manifest can exceed
    * the limit of the staged walk by ten paths and no more.
    */
  lemma {:induction false} AtMostTenOver(src: Node, entries: seq<Entry>, required: set<Path>, hash: seq<Byte> -> string)
    requires src.Directory? && DistinctKeys(entries) && Matches(src, entries, required, hash)
    ensures |InputsOf(entries)| + |Parents(InputsOf(entries))| <= MAX_VISITS + 10
  {
    AdmissiblePaths(entries, required);
    InputsCounted(src, InputsOf(entries), hash);
    SourceCounted(src, hash);
  }

  // The staged tree as a source.

  /** Each of the three folders holds some name. */
  ghost predicate FoldersFilled(inputs: Inputs) {
    forall f :: f in ROOT_FOLDERS ==> [f] in Parents(inputs)
  }

  lemma StagedInView(src: Node, t: Node, inputs: Inputs, data: map<Path, seq<Byte>>, hash: seq<Byte> -> string)
    requires src.Directory? && Listing(Selected(src), [], hash) == inputs
    requires t.Directory? && Separate(inputs) && Holds(t, inputs, data, Parents(inputs), inputs.Keys)
    ensures Selected(t) == t
  {
    forall q | q in NodePaths(t)
      ensures InView(q)
    {
      HeldAt(t, inputs, data, q);
      InputsInSource(src, inputs, hash, q);
    }
    SelectedSame(t);
  }

  /** The roots are there again exactly when no folder has been left empty. */
  lemma StagedRoots(src: Node, t: Node, inputs: Inputs, data: map<Path, seq<Byte>>, hash: seq<Byte> -> string)
    requires RootsThere(src, ROOT_FILES, ROOT_FOLDERS) && Listing(Selected(src), [], hash) == inputs
    requires t.Directory? && Separate(inputs) && Holds(t, inputs, data, Parents(inputs), inputs.Keys)
    ensures RootsThere(t, ROOT_FILES, ROOT_FOLDERS) <==> FoldersFilled(inputs)
  {
    forall k | k in ROOT_FILES + ROOT_FOLDERS
      ensures k in ROOT_FILES ==> k in t.entries && t.entries[k].Regular?
      ensures k in ROOT_FOLDERS ==> (k in t.entries && t.entries[k].Directory? <==> [k] in Parents(inputs))
    {
      StagedRoot(src, t, inputs, data, hash, k);
    }
  }

  lemma StagedRoot(src: Node, t: Node, inputs: Inputs, data: map<Path, seq<Byte>>, hash: seq<Byte> -> string, k: string)
    requires RootsThere(src, ROOT_FILES, ROOT_FOLDERS) && Listing(Selected(src), [], hash) == inputs && k in ROOT_FILES + ROOT_FOLDERS
    requires t.Directory? && Separate(inputs) && Holds(t, inputs, data, Parents(inputs), inputs.Keys)
    ensures k in ROOT_FILES ==> k in t.entries && t.entries[k].Regular?
    ensures k in ROOT_FOLDERS ==> (k in t.entries && t.entries[k].Directory? <==> [k] in Parents(inputs))
  {
    var q := [k];
    assert q[1..] == [] && q[0..] == q && InView(q);
    InListing(Selected(src), [], q);
    SelectedView(src, q);
    HeldAt(t, inputs, data, q);
    assert View(t, q) == if k in t.entries then Some(ShapeOf(t.entries[k])) else None;
    assert View(src, q) == Some(ShapeOf(src.entries[k]));
  }

  lemma HeldIsFit(t: Node, inputs: Inputs, data: map<Path, seq<Byte>>, dirs: set<Path>, nameFits: NameTest, leafFits: LeafTest)
    requires Apart(inputs, dirs) && Holds(t, inputs, data, dirs, inputs.Keys)
    requires forall p :: p in inputs || p in dirs ==> nameFits(p)
    requires forall p :: p in inputs ==> leafFits(p, NodeFor(inputs[p], DataAt(data, p)))
    ensures !Refusable(SourceCheck(nameFits, leafFits), t, [])
  {
    forall q | q in NodePaths(t)
      ensures !Refused(SourceCheck(nameFits, leafFits), t, [], q)
    {
      HeldIn(t, inputs, data, dirs, q);
      assert [] + q == q;
    }
  }

  /** Every leaf of an admissible manifest fits. */
  lemma LeavesPass(entries: seq<Entry>, required: set<Path>, data: map<Path, seq<Byte>>, hash: seq<Byte> -> string)
    requires DistinctKeys(entries) && Admissible(entries, required) && DataMatches(InputsOf(entries), data, hash)
    ensures forall q :: q in InputsOf(entries) ==> LeafFits(q, NodeFor(InputsOf(entries)[q], DataAt(data, q)))
  {
    forall q | q in InputsOf(entries)
      ensures LeafFits(q, NodeFor(InputsOf(entries)[q], DataAt(data, q)))
    {
      LeafPasses(entries, required, data, hash, q);
    }
  }

  /** Nothing in the staged tree of an admissible manifest is refused by the walk over a source. */
  lemma StagedFits(t: Node, entries: seq<Entry>, required: set<Path>, data: map<Path, seq<Byte>>, hash: seq<Byte> -> string)
    requires t.Directory? && DistinctKeys(entries) && Admissible(entries, required) && DataMatches(InputsOf(entries), data, hash)
    requires Holds(t, InputsOf(entries), data, Parents(InputsOf(entries)), InputsOf(entries).Keys)
    ensures !Refusable(SourceCheck(NameFits, LeafFits), t, [])
  {
    var inputs := InputsOf(entries);
    AdmissiblePaths(entries, required);
    SeparateIsApart(inputs);
    LeavesPass(entries, required, data, hash);
    HeldIsFit(t, inputs, data, Parents(inputs), NameFits, LeafFits);
  }

  lemma LeafPasses(entries: seq<Entry>, required: set<Path>, data: map<Path, seq<Byte>>, hash: seq<Byte> -> string, q: Path)
    requires DistinctKeys(entries) && Admissible(entries, required) && DataMatches(InputsOf(entries), data, hash)
    requires q in InputsOf(entries)
    ensures LeafFits(q, NodeFor(InputsOf(entries)[q], DataAt(data, q)))
  {
    var inputs := InputsOf(entries);
    InputsHave(entries);
    var i :| 0 <= i < |entries| && entries[i].key == q;
    assert Objection(entries[i]).None?;
    assert LinkAllowed(inputs, Parents(inputs), q);
  }

  /**
    * The second look: `current_inputs` succeeds on the staged tree, and finds the manifest again,
    * exactly when no folder has been left empty.
    */
  lemma {:induction false} StagedPasses(src: Node, t: Node, entries: seq<Entry>, required: set<Path>, data: map<Path, seq<Byte>>,
                                        hash: seq<Byte> -> string)
    requires src.Directory? && DistinctKeys(entries) && Matches(src, entries, required, hash) && DataMatches(InputsOf(entries), data, hash)
    requires t.Directory? && Holds(t, InputsOf(entries), data, Parents(InputsOf(entries)), InputsOf(entries).Keys)
    ensures SourcePasses(t, hash) <==> FoldersFilled(InputsOf(entries))
    ensures Listing(Selected(t), [], hash) == InputsOf(entries)
  {
    var inputs := InputsOf(entries);
    AdmissiblePaths(entries, required);
    StagedInView(src, t, inputs, data, hash);
    StagedRoots(src, t, inputs, data, hash);
    TreeListing(t, inputs, data, hash);
    StagedFits(t, entries, required, data, hash);
    TreeSize(t, inputs, data);
    AtMostTenOver(src, entries, required, hash);
    SourceCounted(t, hash);
    SameLeavesFit(src, t, hash);
  }

  lemma SameLeavesFit(src: Node, t: Node, hash: seq<Byte> -> string)
    requires src.Directory? && t.Directory? && Fits(SourceContent(src, hash))
    requires Listing(Selected(t), [], hash) == Listing(Selected(src), [], hash)
    requires !Refusable(SourceCheck(NameFits, LeafFits), Selected(t), []) && SourceContent(t, hash).paths <= MAX_VISITS
    ensures Fits(SourceContent(t, hash))
  {
  }

  // The three steps.

  datatype StageFault = NoMatch | SourceDiffers | WriteFault | StagedNoMatch | StagedDiffers

  /** `check_snapshot` on an unchanging tree: the manifest checks, then the walk, then their comparison. */
  method CheckSnapshot(src: Node, entries: seq<Entry>, required: set<Path>, hash: seq<Byte> -> string) returns (r: Option<Admitted>)
    requires src.Directory? && DistinctKeys(entries)
    ensures r.Some? <==> Matches(src, entries, required, hash)
    ensures r.Some? ==> r.value.inputs == InputsOf(entries) && r.value.directories == Parents(InputsOf(entries))
  {
    var admitted := ValidateInputs(entries, required);
    if admitted.Err? {
      return None;
    }
    var found := Inventory(src, hash);
    if found.Err? || found.value != admitted.value.inputs {
      return None;
    }
    return Some(admitted.value);
  }

  type Stats = Path -> (Stat, Stat)

  /** Whether the writes of the copy at a path are sure to succeed. */
  type Health = Path -> bool

  ghost predicate SomeUnhealthy(inputs: Inputs, healthy: Health) {
    exists p :: p in inputs && !healthy(p)
  }

  /** What is found at each path at the moment it is opened. */
  type Views = Path -> Option<Shape>

  function ViewsOf(src: Node): Views {
    p => View(src, p)
  }

  /** The leaf found at `p` still is what the manifest lists: the same link, or a file that `copy_leaf` accepts. */
  ghost predicate LeafCopies(later: Views, p: Path, item: Item, stats: Stats, hash: seq<Byte> -> string) {
    match later(p)
    case None => false
    case Some(Folder) => false
    case Some(Leaf(n)) =>
      match item
      case Symlink(target) => n == Link(target)
      case File(sha256, _) =>
        n.Regular? && Copyable(n.data, stats(p).0, stats(p).1, MAX_FILE, sha256, false, hash)
  }

  ghost predicate LeavesCopy(later: Views, inputs: Inputs, stats: Stats, hash: seq<Byte> -> string) {
    forall p :: p in inputs ==> LeafCopies(later, p, inputs[p], stats, hash)
  }

  /** `data` has the bytes found at every listed file, and they have the listed digest. */
  ghost predicate Copied(later: Views, inputs: Inputs, data: map<Path, seq<Byte>>, hash: seq<Byte> -> string) {
    forall p :: p in inputs && inputs[p].File? ==> CopiedAt(later, p, inputs[p], data, hash)
  }

  ghost predicate CopiedAt(later: Views, p: Path, item: Item, data: map<Path, seq<Byte>>, hash: seq<Byte> -> string)
    requires item.File?
  {
    later(p) == Some(Leaf(Regular(DataAt(data, p)))) && hash(DataAt(data, p)) == item.sha256
  }

  /**
    * The reads of the leaf loop, from a source that may have changed since it was checked, and go on
    * changing: `copy_leaf` for each file, and a second look at each link. Unless a write fails, it succeeds
    * exactly when every leaf still is what the manifest lists at the moment it is read.
    */
  method CopyLeaves(later: Views, inputs: Inputs, names: seq<Path>, stats: Stats, healthy: Health, hash: seq<Byte> -> string)
    returns (r: Result<map<Path, seq<Byte>>, StageFault>)
    requires forall p :: p in names <==> p in inputs
    requires forall i, j :: 0 <= i < j < |names| ==> names[i] != names[j]
    ensures r.Err? ==> r.error == SourceDiffers || r.error == WriteFault
    ensures r == Err(WriteFault) ==> SomeUnhealthy(inputs, healthy)
    ensures r != Err(WriteFault) ==> (r.Ok? <==> LeavesCopy(later, inputs, stats, hash))
    ensures r.Ok? ==> Copied(later, inputs, r.value, hash)
  {
    var data: map<Path, seq<Byte>> := map[];
    for i := 0 to |names|
      invariant forall j :: 0 <= j < i ==> LeafCopies(later, names[j], inputs[names[j]], stats, hash)
      invariant forall j :: 0 <= j < i && inputs[names[j]].File? ==> CopiedAt(later, names[j], inputs[names[j]], data, hash)
    {
      var p := names[i];
      var copied := CopyAt(later, p, inputs[p], stats, healthy(p), hash);
      if copied.Err? {
        return Err(copied.error);
      }
      data := if inputs[p].File? then data[p := copied.value] else data;
    }
    return Ok(data);
  }

  /** One turn of the leaf loop: the bytes of a file, nothing for a link. */
  method CopyAt(later: Views, p: Path, item: Item, stats: Stats, healthy: bool, hash: seq<Byte> -> string)
    returns (r: Result<seq<Byte>, StageFault>)
    ensures r.Err? ==> r.error == SourceDiffers || (r.error == WriteFault && !healthy)
    ensures r != Err(WriteFault) ==> (r.Ok? <==> LeafCopies(later, p, item, stats, hash))
    ensures r.Ok? && item.File? ==> later(p) == Some(Leaf(Regular(r.value))) && hash(r.value) == item.sha256
  {
    var held := later(p);
    if held.None? || held.value.Folder? {
      return Err(SourceDiffers);
    }
    var n := held.value.node;
    match item
    case Symlink(target) =>
      return if n == Link(target) then Ok([]) else Err(SourceDiffers);
    case File(sha256, _) =>
      if !n.Regular? {
        return Err(SourceDiffers);
      }
      var src := new Source(n.data);
      var dst := new Sink(healthy);
      var copied := CopyLeaf(src, dst, stats(p).0, stats(p).1, MAX_FILE, sha256, false, hash);
      if copied.Err? {
        return Err(if copied.error == WriteFailed then WriteFault else SourceDiffers);
      }
      return Ok(dst.written);
  }

  /** What was checked and what was copied do not collide under the digest. */
  ghost predicate NoCollision(src: Node, later: Views, inputs: Inputs, hash: seq<Byte> -> string) {
    forall p, a, b :: p in inputs && View(src, p) == Some(Leaf(Regular(a))) && later(p) == Some(Leaf(Regular(b))) && hash(a) == hash(b)
                      ==> a == b
  }

  /** A listed file of a matching source, with its digest and size. */
  lemma ListedFile(src: Node, inputs: Inputs, hash: seq<Byte> -> string, p: Path)
    requires src.Directory? && Listing(Selected(src), [], hash) == inputs && p in inputs
    ensures View(src, p).Some? && View(src, p).value.Leaf? && !View(src, p).value.node.Directory?
    ensures inputs[p].File? ==> View(src, p).value.node.Regular?
                                && inputs[p] == File(hash(View(src, p).value.node.data), |View(src, p).value.node.data|)
    ensures inputs[p].Symlink? && !View(src, p).value.node.Special? ==> View(src, p).value.node == Link(inputs[p].target)
  {
    InListing(Selected(src), [], p);
    assert p[0..] == p;
    SelectedView(src, p);
  }

  /** Without a collision, what was copied is what was checked, size included. */
  lemma CopiedIsChecked(src: Node, later: Views, inputs: Inputs, data: map<Path, seq<Byte>>, hash: seq<Byte> -> string)
    requires src.Directory? && Listing(Selected(src), [], hash) == inputs
    requires Copied(later, inputs, data, hash) && NoCollision(src, later, inputs, hash)
    ensures DataMatches(inputs, data, hash)
  {
    forall p | p in inputs && inputs[p].File?
      ensures inputs[p] == File(hash(DataAt(data, p)), |DataAt(data, p)|)
    {
      ListedFile(src, inputs, hash, p);
      var a := View(src, p).value.node.data;
      assert CopiedAt(later, p, inputs[p], data, hash);
      assert View(src, p) == Some(Leaf(Regular(a)));
    }
  }

  /**
    * `stage`: check the source, build the tree, check the tree. Whatever the source becomes after the
    * check, a staged tree that is delivered holds exactly the manifest. Unless a write
    * fails, staging succeeds exactly when the source matched, every leaf still is what was listed when it is
    * copied, no folder was left empty, and names and directories together stay within the visit limit of the
    * staged walk.
    */
  method StageSnapshot(src: Node, later: Views, entries: seq<Entry>, required: set<Path>, stats: Stats, healthy: Health,
                       hash: seq<Byte> -> string)
    returns (r: Result<Node, StageFault>)
    requires src.Directory? && DistinctKeys(entries) && NoCollision(src, later, InputsOf(entries), hash)
    ensures var inputs := InputsOf(entries);
            r != Err(WriteFault) ==>
              (r.Ok? <==> && Matches(src, entries, required, hash) && LeavesCopy(later, inputs, stats, hash)
                          && FoldersFilled(inputs) && |inputs| + |Parents(inputs)| <= MAX_VISITS)
    ensures r.Ok? ==> Listing(r.value, [], hash) == InputsOf(entries)
    ensures r == Err(WriteFault) ==> Matches(src, entries, required, hash) && SomeUnhealthy(InputsOf(entries), healthy)
  {
    var checked := CheckSnapshot(src, entries, required, hash);
    if checked.None? {
      return Err(NoMatch);
    }
    var Admitted(inputs, directories, _) := checked.value;
    var names := KeysOf(entries);
    KeysAreNames(entries);
    var copied := CopyLeaves(later, inputs, names, stats, healthy, hash);
    if copied.Err? {
      return Err(copied.error);
    }
    CopiedIsChecked(src, later, inputs, copied.value, hash);
    r := StageAndVerify(entries, required, names, directories, copied.value, hash, src);
  }

  /** Building the tree never fails here, and it holds the manifest. */
  method BuildTree(entries: seq<Entry>, required: set<Path>, names: seq<Path>, directories: set<Path>, data: map<Path, seq<Byte>>)
    returns (tree: Node)
    requires DistinctKeys(entries) && Admissible(entries, required)
    requires forall p :: p in names <==> p in InputsOf(entries)
    requires forall i, j :: 0 <= i < j < |names| ==> names[i] != names[j]
    requires directories == Parents(InputsOf(entries))
    ensures tree.Directory? && Separate(InputsOf(entries))
    ensures Holds(tree, InputsOf(entries), data, Parents(InputsOf(entries)), InputsOf(entries).Keys)
  {
    AdmissiblePaths(entries, required);
    var staged := Stage(InputsOf(entries), names, directories, data);
    tree := staged.value;
    assert View(tree, []) == Some(Folder);
  }

  /** `inventory_staged` on the staged tree gives the manifest back exactly within the limit. */
  method InventoryAgain(tree: Node, entries: seq<Entry>, required: set<Path>, hash: seq<Byte> -> string, ghost data: map<Path, seq<Byte>>)
    returns (same: bool)
    requires DistinctKeys(entries) && Admissible(entries, required) && DataMatches(InputsOf(entries), data, hash)
    requires tree.Directory? && Holds(tree, InputsOf(entries), data, Parents(InputsOf(entries)), InputsOf(entries).Keys)
    ensures same <==> |InputsOf(entries)| + |Parents(InputsOf(entries))| <= MAX_VISITS
    ensures Listing(tree, [], hash) == InputsOf(entries)
  {
    ghost var inputs := InputsOf(entries);
    AdmissiblePaths(entries, required);
    TreeSize(tree, inputs, data);
    TreeListing(tree, inputs, data, hash);
    NothingRefused(IsRelativeName, tree, inputs, data, hash);
    var listed := InventoryStaged(tree, hash, IsRelativeName);
    same := listed.Ok? && listed.value == InputsOf(entries);
  }

  method StageAndVerify(entries: seq<Entry>, required: set<Path>, names: seq<Path>, directories: set<Path>,
                        data: map<Path, seq<Byte>>, hash: seq<Byte> -> string, ghost src: Node)
    returns (r: Result<Node, StageFault>)
    requires src.Directory? && DistinctKeys(entries) && Matches(src, entries, required, hash) && DataMatches(InputsOf(entries), data, hash)
    requires forall p :: p in names <==> p in InputsOf(entries)
    requires forall i, j :: 0 <= i < j < |names| ==> names[i] != names[j]
    requires directories == Parents(InputsOf(entries))
    ensures r.Ok? <==> FoldersFilled(InputsOf(entries)) && |InputsOf(entries)| + |Parents(InputsOf(entries))| <= MAX_VISITS
    ensures r.Ok? ==> Listing(r.value, [], hash) == InputsOf(entries)
    ensures r != Err(WriteFault)
  {
    var tree := BuildTree(entries, required, names, directories, data);
    StagedPasses(src, tree, entries, required, data, hash);
    var again := CheckSnapshot(tree, entries, required, hash);
    if again.None? {
      return Err(StagedNoMatch);
    }
    var same := InventoryAgain(tree, entries, required, hash, data);
    return if same then Ok(tree) else Err(StagedDiffers);
  }

  // A source that stays as it was checked.

  /** `fstat` before and after each copy agrees with the file that is there. */
  ghost predicate Truthful(src: Node, stats: Stats) {
    forall p, d :: View(src, p) == Some(Leaf(Regular(d))) ==>
      stats(p).0.regular && stats(p).0.size == |d| && SameFile(stats(p).0, stats(p).1)
  }

  lemma StillCopies(src: Node, entries: seq<Entry>, required: set<Path>, stats: Stats, hash: seq<Byte> -> string)
    requires src.Directory? && DistinctKeys(entries) && Matches(src, entries, required, hash) && Truthful(src, stats)
    ensures LeavesCopy(ViewsOf(src), InputsOf(entries), stats, hash)
  {
    AdmissiblePaths(entries, required);
    StillCopiesAll(src, InputsOf(entries), stats, hash);
  }

  lemma StillCopiesAll(src: Node, inputs: Inputs, stats: Stats, hash: seq<Byte> -> string)
    requires SourcePasses(src, hash) && Listing(Selected(src), [], hash) == inputs && Truthful(src, stats)
    requires forall p :: p in inputs && inputs[p].File? ==> inputs[p].bytes <= MAX_FILE
    ensures LeavesCopy(ViewsOf(src), inputs, stats, hash)
  {
    forall p | p in inputs
      ensures LeafCopies(ViewsOf(src), p, inputs[p], stats, hash)
    {
      ListedFile(src, inputs, hash, p);
      NotSpecial(src, hash, p);
      SameLeafCopies(src, p, inputs[p], stats, hash);
    }
  }

  lemma SameLeafCopies(src: Node, p: Path, item: Item, stats: Stats, hash: seq<Byte> -> string)
    requires Truthful(src, stats) && View(src, p).Some? && View(src, p).value.Leaf?
    requires var n := View(src, p).value.node;
             if item.File? then n.Regular? && item == File(hash(n.data), |n.data|) && |n.data| <= MAX_FILE else n == Link(item.target)
    ensures LeafCopies(ViewsOf(src), p, item, stats, hash)
  {
    var n := View(src, p).value.node;
    assert n.Regular? ==> View(src, p) == Some(Leaf(Regular(n.data)));
  }

  /** The walk over a source refuses special files. */
  lemma NotSpecial(src: Node, hash: seq<Byte> -> string, p: Path)
    requires SourcePasses(src, hash) && p in Listing(Selected(src), [], hash)
    ensures View(src, p).Some? && View(src, p).value.Leaf? && !View(src, p).value.node.Special?
  {
    var sel := Selected(src);
    InListing(sel, [], p);
    assert p[0..] == p && [] + p == p;
    NodePathsSeen(sel, p);
    SelectedView(src, p);
    SpecialIsRefused(NameFits, LeafFits, sel, p);
  }

  lemma SpecialIsRefused(nameFits: NameTest, leafFits: LeafTest, t: Node, p: Path)
    requires p in NodePaths(t) && View(t, p).Some? && !Refusable(SourceCheck(nameFits, leafFits), t, [])
    ensures View(t, p).value.Leaf? ==> leafFits(p, View(t, p).value.node)
  {
    assert [] + p == p;
    assert !Refused(SourceCheck(nameFits, leafFits), t, [], p);
  }

  /**
    * So a source that does not change under `stage` is staged, unless a write fails, exactly when it
    * matched, no folder was left empty, and the limit holds.
    */
  method StageUnchanged(src: Node, entries: seq<Entry>, required: set<Path>, stats: Stats, healthy: Health,
                       hash: seq<Byte> -> string)
    returns (r: Result<Node, StageFault>)
    requires src.Directory? && DistinctKeys(entries) && Truthful(src, stats)
    ensures var inputs := InputsOf(entries);
            r != Err(WriteFault) ==>
              (r.Ok? <==> && Matches(src, entries, required, hash) && FoldersFilled(inputs)
                          && |inputs| + |Parents(inputs)| <= MAX_VISITS)
    ensures r.Ok? ==> Listing(r.value, [], hash) == InputsOf(entries)
    ensures r == Err(WriteFault) ==> SomeUnhealthy(InputsOf(entries), healthy)
  {
    if Matches(src, entries, required, hash) {
      StillCopies(src, entries, required, stats, hash);
    }
    r := StageSnapshot(src, ViewsOf(src), entries, required, stats, healthy, hash);
  }
}
