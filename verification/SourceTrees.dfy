/** Manifests and the source trees that match them: growing one by a name, and a tree for each. */
module SourceTrees {
  import opened Outcome
  import opened Text
  import opened RelativePath
  import opened LinkResolution
  import opened StagedTree
  import opened Staging
  import opened CurrentInputs
  import opened Snapshot

  // A tree for any manifest.

  /** Directories that hold their own parents, and those of every name. */
  ghost predicate Holding(inputs: Inputs, dirs: set<Path>) {
    Apart(inputs, dirs) && Parents(inputs) <= dirs && forall d :: d in dirs && |d| > 1 ==> Parent(d) in dirs
  }

  /** Every inventory and such directories are held by some tree. */
  lemma {:induction false} TreeExists(inputs: Inputs, data: map<Path, seq<Byte>>, dirs: set<Path>) returns (t: Node)
    requires Holding(inputs, dirs)
    ensures t.Directory? && Holds(t, inputs, data, dirs, inputs.Keys)
  {
    t := Directory(map[]);
    var made: set<Path> := {};
    while made != dirs
      invariant made <= dirs && Holds(t, inputs, data, made, {})
      decreases dirs - made
    {
      var d := NextDirectory(inputs, dirs, made);
      HoldsDirectory(t, inputs, data, made, d);
      t := Create(t, d, Directory(map[])).value;
      made := made + {d};
    }
    var put: set<Path> := {};
    while put != inputs.Keys
      invariant put <= inputs.Keys && Holds(t, inputs, data, dirs, put)
      decreases inputs.Keys - put
    {
      SomeLeft(inputs.Keys, put);
      var p :| p in inputs.Keys - put;
      if |p| > 1 {
        ParentsAreClosed(inputs, p);
      }
      HoldsLeaf(t, inputs, data, dirs, put, p);
      t := Create(t, p, NodeFor(inputs[p], DataAt(data, p))).value;
      put := put + {p};
    }
    assert View(t, []) == Some(Folder);
  }

  lemma SomeLeft(all: set<Path>, some: set<Path>)
    requires some <= all && some != all
    ensures exists p :: p in all - some
  {
    if all - some == {} {
      forall p | p in all
        ensures p in some
      {
        assert p !in all - some;
      }
    }
  }

  lemma NextDirectory(inputs: Inputs, dirs: set<Path>, made: set<Path>) returns (d: Path)
    requires Holding(inputs, dirs) && made < dirs
    ensures d in dirs - made && d != [] && (Parent(d) == [] || Parent(d) in made)
  {
    SomeLeft(dirs, made);
    ShallowestExists(dirs - made);
    d :| d in dirs - made && forall e :: e in dirs - made ==> |d| <= |e|;
  }

  /** The two totals agree: the checks on the manifest and the walk over the source add up the same bytes. */
  lemma {:induction false} BytesAgree(entries: seq<Entry>)
    requires DistinctKeys(entries)
    ensures BytesIn(InputsOf(entries)) == Bytes(entries)
  {
    if entries != [] {
      var front, last := entries[..|entries| - 1], entries[|entries| - 1];
      BytesAgree(front);
      InputsHave(front);
      var inputs := InputsOf(entries);
      BytesWithout(inputs, last.key);
      assert inputs - {last.key} == InputsOf(front);
    }
  }

  /** A manifest of names in view, with the root files. */
  ghost predicate Sourced(entries: seq<Entry>) {
    && DistinctKeys(entries)
    && (forall i :: 0 <= i < |entries| ==> InView(entries[i].key))
    && (forall k :: k in ROOT_FILES ==> [k] in InputsOf(entries) && InputsOf(entries)[[k]].File?)
  }

  ghost predicate AllFiles(entries: seq<Entry>) {
    forall i :: 0 <= i < |entries| ==> entries[i].item.File?
  }

  lemma SourcedInputs(entries: seq<Entry>, q: Path)
    requires Sourced(entries)
    ensures q in InputsOf(entries) ==> InView(q)
    ensures q in Parents(InputsOf(entries)) ==> InView(q)
    decreases if q in InputsOf(entries) then 0 else 1
  {
    InputsHave(entries);
    if q in InputsOf(entries) {
      var i :| 0 <= i < |entries| && entries[i].key == q;
    } else if q in Parents(InputsOf(entries)) {
      var p, k :| p in InputsOf(entries) && 0 < k < |p| && q == p[..k];
      SourcedInputs(entries, p);
      PrefixInView(p, k);
    }
  }

  lemma PrefixInView(p: Path, k: nat)
    requires InView(p) && 0 < k <= |p|
    ensures InView(p[..k])
  {
    var q := p[..k];
    assert forall j :: 0 <= j < |q[1..]| ==> q[1..][j] == p[1..][j];
  }

  /** Directories for a source: in view, with fitting names, the three folders among them. */
  ghost predicate SourceDirs(dirs: set<Path>) {
    (forall d :: d in dirs ==> InView(d) && NameFits(d)) && forall f :: f in ROOT_FOLDERS ==> [f] in dirs
  }

  /** The tree passes `check_snapshot` as long as names and directories exceed the limit by no more than the roots. */
  lemma {:induction false} HeldMatches(t: Node, entries: seq<Entry>, required: set<Path>, data: map<Path, seq<Byte>>, dirs: set<Path>,
                                       hash: seq<Byte> -> string)
    requires Sourced(entries) && Admissible(entries, required) && DataMatches(InputsOf(entries), data, hash)
    requires Apart(InputsOf(entries), dirs) && SourceDirs(dirs)
    requires t.Directory? && Holds(t, InputsOf(entries), data, dirs, InputsOf(entries).Keys)
    requires |InputsOf(entries)| + |dirs| <= MAX_VISITS + 10
    ensures Matches(t, entries, required, hash)
  {
    HeldSelected(t, entries, data, dirs);
    HeldRoots(t, entries, data, dirs);
    ListingIn(t, InputsOf(entries), data, dirs, hash);
    HeldFits(t, entries, required, data, dirs, hash);
  }

  lemma HeldFits(t: Node, entries: seq<Entry>, required: set<Path>, data: map<Path, seq<Byte>>, dirs: set<Path>, hash: seq<Byte> -> string)
    requires DistinctKeys(entries) && Admissible(entries, required) && DataMatches(InputsOf(entries), data, hash)
    requires Apart(InputsOf(entries), dirs) && SourceDirs(dirs)
    requires t.Directory? && Selected(t) == t && Holds(t, InputsOf(entries), data, dirs, InputsOf(entries).Keys)
    requires |InputsOf(entries)| + |dirs| <= MAX_VISITS + 10
    ensures Fits(SourceContent(t, hash))
  {
    var inputs := InputsOf(entries);
    AdmissiblePaths(entries, required);
    LeavesPass(entries, required, data, hash);
    HeldIsFit(t, inputs, data, dirs, NameFits, LeafFits);
    ListingIn(t, inputs, data, dirs, hash);
    SizeIn(t, inputs, data, dirs);
    SourceCounted(t, hash);
    BytesAgree(entries);
    KeyCount(entries);
    FitsAltogether(t, inputs, hash);
  }

  /** The directories of the names, and the three folders whether or not a name lies in them. */
  ghost function WithFolders(inputs: Inputs): set<Path> {
    Parents(inputs) + Tops(ROOT_FOLDERS)
  }

  lemma FoldersHold(inputs: Inputs)
    requires Separate(inputs) && Tops(ROOT_FOLDERS) !! inputs.Keys
    ensures Holding(inputs, WithFolders(inputs))
  {
    SeparateIsApart(inputs);
    forall d | d in Parents(inputs) && |d| > 1
      ensures Parent(d) in Parents(inputs)
    {
      ParentsAreClosed(inputs, d);
    }
  }

  lemma FoldersAreSourceDirs(entries: seq<Entry>, required: set<Path>)
    requires Sourced(entries) && Admissible(entries, required)
    ensures SourceDirs(WithFolders(InputsOf(entries)))
  {
    AdmissiblePaths(entries, required);
    forall d | d in Parents(InputsOf(entries))
      ensures InView(d) && NameFits(d)
    {
      SourcedInputs(entries, d);
    }
    forall f | f in ROOT_FOLDERS
      ensures InView([f]) && NameFits([f])
    {
      FolderFits(f);
    }
  }

  lemma FoldersServe(entries: seq<Entry>, required: set<Path>)
    requires Sourced(entries) && Admissible(entries, required) && Tops(ROOT_FOLDERS) !! InputsOf(entries).Keys
    ensures Holding(InputsOf(entries), WithFolders(InputsOf(entries))) && SourceDirs(WithFolders(InputsOf(entries)))
  {
    AdmissiblePaths(entries, required);
    FoldersHold(InputsOf(entries));
    FoldersAreSourceDirs(entries, required);
  }

  lemma FolderFits(f: string)
    requires f in ROOT_FOLDERS
    ensures InView([f]) && NameFits([f])
  {
    RootFoldersAreTame();
    TameNameFits(f);
    assert [f][1..] == [];
  }

  /** A folder without a name below it is empty. */
  lemma UnnamedIsEmpty(t: Node, inputs: Inputs, data: map<Path, seq<Byte>>, f: string)
    requires t.Directory? && Apart(inputs, WithFolders(inputs)) && f in ROOT_FOLDERS && [f] !in Parents(inputs)
    requires Holds(t, inputs, data, WithFolders(inputs), inputs.Keys)
    ensures f in t.entries && t.entries[f] == Directory(map[])
  {
    HeldRoot(t, inputs, data, WithFolders(inputs), f);
    forall k: string
      ensures k !in t.entries[f].entries
    {
      FolderIsNamed(inputs, f, k);
      TwoDown(t, f, k);
    }
    assert t.entries[f].entries == map[];
  }

  lemma TwoDown(t: Node, f: string, k: string)
    requires t.Directory? && f in t.entries && t.entries[f].Directory?
    ensures View(t, [f, k]).Some? <==> k in t.entries[f].entries
  {
    assert [f, k][1..] == [k] && [k][1..] == [];
    var below := t.entries[f];
    assert View(t, [f, k]) == View(below, [k]);
    assert View(below, [k]) == if k in below.entries then View(below.entries[k], []) else None;
  }

  lemma FolderIsNamed(inputs: Inputs, f: string, k: string)
    ensures [f, k] in inputs || [f, k] in Parents(inputs) ==> [f] in Parents(inputs)
  {
    assert [f, k][..1] == [f];
    if [f, k] in Parents(inputs) {
      var p, n :| p in inputs && 0 < n < |p| && [f, k] == p[..n];
      assert p[..1] == [f, k][..1];
    }
  }

  /**
    * Every such manifest has a source that passes, with or without names in the three folders, and a folder
    * without names is an empty one there.
    */
  lemma {:induction false} SourceExists(entries: seq<Entry>, required: set<Path>, data: map<Path, seq<Byte>>, hash: seq<Byte> -> string)
    returns (src: Node)
    requires Sourced(entries) && Admissible(entries, required) && Tops(ROOT_FOLDERS) !! InputsOf(entries).Keys
    requires DataMatches(InputsOf(entries), data, hash) && |InputsOf(entries)| + |WithFolders(InputsOf(entries))| <= MAX_VISITS + 10
    ensures src.Directory? && Matches(src, entries, required, hash)
    ensures forall f :: f in ROOT_FOLDERS && [f] !in Parents(InputsOf(entries)) ==> f in src.entries && src.entries[f] == Directory(map[])
  {
    var inputs := InputsOf(entries);
    FoldersServe(entries, required);
    src := TreeExists(inputs, data, WithFolders(inputs));
    HeldMatches(src, entries, required, data, WithFolders(inputs), hash);
    UnnamedAreEmpty(src, inputs, data);
  }

  lemma UnnamedAreEmpty(t: Node, inputs: Inputs, data: map<Path, seq<Byte>>)
    requires t.Directory? && Apart(inputs, WithFolders(inputs)) && Holds(t, inputs, data, WithFolders(inputs), inputs.Keys)
    ensures forall f :: f in ROOT_FOLDERS && [f] !in Parents(inputs) ==> f in t.entries && t.entries[f] == Directory(map[])
  {
    forall f | f in ROOT_FOLDERS && [f] !in Parents(inputs)
      ensures f in t.entries && t.entries[f] == Directory(map[])
    {
      UnnamedIsEmpty(t, inputs, data, f);
    }
  }

  /** With all folders filled the directories are those of the names. */
  lemma FilledSourceExists(entries: seq<Entry>, required: set<Path>, data: map<Path, seq<Byte>>, hash: seq<Byte> -> string)
    returns (src: Node)
    requires Sourced(entries) && Admissible(entries, required) && FoldersFilled(InputsOf(entries))
    requires DataMatches(InputsOf(entries), data, hash) && Size(entries) <= MAX_VISITS + 10
    ensures src.Directory? && Matches(src, entries, required, hash)
  {
    assert WithFolders(InputsOf(entries)) == Parents(InputsOf(entries));
    src := SourceExists(entries, required, data, hash);
  }

  lemma FitsAltogether(t: Node, inputs: Inputs, hash: seq<Byte> -> string)
    requires t.Directory? && Listing(Selected(t), [], hash) == inputs && |inputs| <= MAX_ENTRIES && BytesIn(inputs) <= MAX_INPUT_BYTES
    requires !Refusable(SourceCheck(NameFits, LeafFits), Selected(t), []) && SourceContent(t, hash).paths <= MAX_VISITS
    ensures Fits(SourceContent(t, hash))
  {
  }

  lemma KeyCount(entries: seq<Entry>)
    ensures |InputsOf(entries)| <= |entries|
  {
    if entries != [] {
      var front, last := entries[..|entries| - 1], entries[|entries| - 1];
      KeyCount(front);
      assert InputsOf(entries).Keys == InputsOf(front).Keys + {last.key};
    }
  }

  lemma HeldSelected(t: Node, entries: seq<Entry>, data: map<Path, seq<Byte>>, dirs: set<Path>)
    requires Sourced(entries) && Apart(InputsOf(entries), dirs) && SourceDirs(dirs)
    requires t.Directory? && Holds(t, InputsOf(entries), data, dirs, InputsOf(entries).Keys)
    ensures Selected(t) == t
  {
    forall q | q in NodePaths(t)
      ensures InView(q)
    {
      HeldIn(t, InputsOf(entries), data, dirs, q);
      SourcedInputs(entries, q);
    }
    SelectedSame(t);
  }

  lemma HeldRoots(t: Node, entries: seq<Entry>, data: map<Path, seq<Byte>>, dirs: set<Path>)
    requires Sourced(entries) && Apart(InputsOf(entries), dirs) && SourceDirs(dirs)
    requires t.Directory? && Holds(t, InputsOf(entries), data, dirs, InputsOf(entries).Keys)
    ensures RootsThere(t, ROOT_FILES, ROOT_FOLDERS)
  {
    var inputs := InputsOf(entries);
    forall k | k in ROOT_FILES || k in ROOT_FOLDERS
      ensures k in t.entries && (k in ROOT_FILES ==> t.entries[k].Regular?) && (k in ROOT_FOLDERS ==> t.entries[k].Directory?)
    {
      HeldRoot(t, inputs, data, dirs, k);
    }
  }

  lemma HeldRoot(t: Node, inputs: Inputs, data: map<Path, seq<Byte>>, dirs: set<Path>, k: string)
    requires Apart(inputs, dirs) && t.Directory? && Holds(t, inputs, data, dirs, inputs.Keys)
    ensures [k] in inputs && inputs[[k]].File? ==> k in t.entries && t.entries[k].Regular?
    ensures [k] in dirs ==> k in t.entries && t.entries[k].Directory?
  {
    var q := [k];
    assert q[1..] == [];
    HeldIn(t, inputs, data, dirs, q);
    assert View(t, q) == if k in t.entries then Some(ShapeOf(t.entries[k])) else None;
  }

  // Growing a manifest.

  /** What the staged walk would count. */
  ghost function Size(entries: seq<Entry>): nat {
    |InputsOf(entries)| + |Parents(InputsOf(entries))|
  }

  /** `key` is new: not there, not a directory of what is there, and none of its directories a name. */
  ghost predicate IsNew(inputs: Inputs, key: Path) {
    key !in inputs && key !in Parents(inputs) && key !in PrefixesOf(key) && PrefixesOf(key) !! inputs.Keys
  }

  /** A link or an empty file. */
  ghost predicate IsLight(item: Item) {
    BytesOf(item) == 0 && ShapeAllowed(item)
  }

  ghost predicate IsEmptyFile(item: Item) {
    item.File? && IsLight(item)
  }

  lemma KeyAdded(entries: seq<Entry>, required: set<Path>, e: Entry)
    requires Sourced(entries) && Admissible(entries, required) && |entries| < MAX_ENTRIES
    requires IsLight(e.item) && PathAccepted(e.key) && e.key[0] in ROOT_FOLDERS && InView(e.key) && IsNew(InputsOf(entries), e.key)
    requires LinksAllowed(InputsOf(entries + [e]), Parents(InputsOf(entries + [e])))
    ensures var more := entries + [e];
            && Sourced(more) && Admissible(more, required)
            && InputsOf(more) == InputsOf(entries)[e.key := e.item]
            && Parents(InputsOf(more)) == Parents(InputsOf(entries)) + PrefixesOf(e.key)
  {
    var more := entries + [e];
    InputsGrow(entries, e, more);
    SourcedMore(entries, e, more);
    AdmissibleMore(entries, required, e, more);
  }

  lemma InputsGrow(entries: seq<Entry>, e: Entry, more: seq<Entry>)
    requires more == entries + [e]
    ensures InputsOf(more) == InputsOf(entries)[e.key := e.item]
    ensures Parents(InputsOf(more)) == Parents(InputsOf(entries)) + PrefixesOf(e.key)
  {
    assert more[..|more| - 1] == entries;
    ParentsGrow(InputsOf(entries), e.key, e.item);
  }

  lemma AdmissibleMore(entries: seq<Entry>, required: set<Path>, e: Entry, more: seq<Entry>)
    requires Admissible(entries, required) && |entries| < MAX_ENTRIES && more == entries + [e]
    requires IsLight(e.item) && PathAccepted(e.key) && e.key[0] in ROOT_FOLDERS && IsNew(InputsOf(entries), e.key)
    requires LinksAllowed(InputsOf(more), Parents(InputsOf(more)))
    ensures Admissible(more, required)
  {
    ObjectsToNone(entries, e, more, Objection);
    InputsGrow(entries, e, more);
    StillApart(InputsOf(entries), e.key);
    assert InputsOf(more).Keys == InputsOf(entries).Keys + {e.key};
  }

  lemma StillApart(inputs: Inputs, key: Path)
    requires Parents(inputs) !! inputs.Keys && IsNew(inputs, key)
    ensures Parents(inputs) + PrefixesOf(key) !! inputs.Keys + {key}
  {
  }

  lemma SourcedMore(entries: seq<Entry>, e: Entry, more: seq<Entry>)
    requires Sourced(entries) && InView(e.key) && e.key !in InputsOf(entries) && more == entries + [e]
    ensures Sourced(more)
  {
    InputsGrow(entries, e, more);
    DistinctMore(entries, e, more);
    RootsStay(InputsOf(entries), InputsOf(more), e);
    forall i | 0 <= i < |more|
      ensures InView(more[i].key)
    {
      assert more[i] == if i < |entries| then entries[i] else e;
    }
  }

  lemma RootsStay(inputs: Inputs, more: Inputs, e: Entry)
    requires more == inputs[e.key := e.item] && e.key !in inputs
    requires forall k :: k in ROOT_FILES ==> [k] in inputs && inputs[[k]].File?
    ensures forall k :: k in ROOT_FILES ==> [k] in more && more[[k]].File?
  {
  }

  // Growing it further.

  /** `more` begins with `entries`. */
  ghost predicate Continues(entries: seq<Entry>, more: seq<Entry>) {
    DistinctKeys(more) && |entries| <= |more| && more[..|entries|] == entries
  }

  /** A path of the longer manifest is of the shorter one, with the same item, or it was added. */
  lemma OldOrNew(entries: seq<Entry>, more: seq<Entry>, p: Path)
    requires Continues(entries, more)
    ensures p in InputsOf(entries) ==> p in InputsOf(more) && InputsOf(more)[p] == InputsOf(entries)[p]
    ensures p in InputsOf(more) && p !in InputsOf(entries) ==> exists i :: |entries| <= i < |more| && InputsOf(more)[p] == more[i].item
  {
    InputsHave(entries);
    InputsHave(more);
    assert forall i :: 0 <= i < |entries| ==> entries[i] == more[i];
    if p in InputsOf(entries) {
      var j :| 0 <= j < |entries| && entries[j].key == p;
      assert more[j].key == p;
    } else if p in InputsOf(more) {
      var i :| 0 <= i < |more| && more[i].key == p;
      assert forall k :: 0 <= k < |entries| ==> entries[k].key != p;
    }
  }

  /** Filled folders stay filled. */
  lemma FoldersStay(entries: seq<Entry>, more: seq<Entry>)
    requires Continues(entries, more) && FoldersFilled(InputsOf(entries))
    ensures FoldersFilled(InputsOf(more))
  {
    forall f | f in ROOT_FOLDERS
      ensures [f] in Parents(InputsOf(more))
    {
      var p, k :| p in InputsOf(entries) && 0 < k < |p| && [f] == p[..k];
      OldOrNew(entries, more, p);
    }
  }

  /** Added links have no bytes, and added files have none in them. */
  lemma MoreDataMatches(entries: seq<Entry>, more: seq<Entry>, data: map<Path, seq<Byte>>, hash: seq<Byte> -> string)
    requires Continues(entries, more) && data.Keys <= InputsOf(entries).Keys && DataMatches(InputsOf(entries), data, hash)
    requires forall i :: |entries| <= i < |more| ==> more[i].item.Symlink? || more[i].item == File(hash([]), 0)
    ensures DataMatches(InputsOf(more), data, hash)
  {
    forall p | p in InputsOf(more) && InputsOf(more)[p].File?
      ensures InputsOf(more)[p] == File(hash(DataAt(data, p)), |DataAt(data, p)|)
    {
      OldOrNew(entries, more, p);
    }
  }

  lemma DistinctMore(entries: seq<Entry>, e: Entry, more: seq<Entry>)
    requires DistinctKeys(entries) && e.key !in InputsOf(entries) && more == entries + [e]
    ensures DistinctKeys(more)
  {
    InputsHave(entries);
    forall i | 0 <= i < |entries|
      ensures entries[i].key != e.key
    {
      assert entries[i].key in InputsOf(entries);
    }
  }

  lemma ObjectsToNone(entries: seq<Entry>, e: Entry, more: seq<Entry>, objection: Entry -> Option<Refusal>)
    requires Unobjectionable(entries, objection) && more == entries + [e] && objection == Objection
    requires IsLight(e.item) && PathAccepted(e.key) && e.key[0] in ROOT_FOLDERS
    ensures Unobjectionable(more, objection) && Bytes(more) == Bytes(entries)
  {
    PathAcceptedMeans(e.key);
    assert more[..|more| - 1] == entries;
  }

  lemma FilesAllowed(entries: seq<Entry>)
    requires DistinctKeys(entries) && AllFiles(entries)
    ensures LinksAllowed(InputsOf(entries), Parents(InputsOf(entries)))
  {
    InputsHave(entries);
    forall p | p in InputsOf(entries)
      ensures InputsOf(entries)[p].File?
    {
      var i :| 0 <= i < |entries| && entries[i].key == p;
    }
  }

  const HOME := "scripts"

  ghost predicate Homed(entries: seq<Entry>) {
    [HOME] in Parents(InputsOf(entries))
  }

  lemma FilledIsHomed(entries: seq<Entry>)
    requires FoldersFilled(InputsOf(entries))
    ensures Homed(entries)
  {
    HomeIsTame();
  }

  /** No name lies at or below `scripts/part`. */
  ghost predicate Free(entries: seq<Entry>, part: string) {
    forall i :: 0 <= i < |entries| ==> FreeOf(entries[i].key, part)
  }

  ghost predicate FreeOf(key: Path, part: string) {
    |key| > 1 && key[0] == HOME ==> key[1] != part
  }

  lemma FreePaths(entries: seq<Entry>, part: string, q: Path)
    requires Free(entries, part)
    ensures q in InputsOf(entries) || q in Parents(InputsOf(entries)) ==> FreeOf(q, part)
  {
    InputsHave(entries);
    if q in InputsOf(entries) {
      var i :| 0 <= i < |entries| && entries[i].key == q;
    } else if q in Parents(InputsOf(entries)) {
      var p, k :| p in InputsOf(entries) && 0 < k < |p| && q == p[..k];
      var i :| 0 <= i < |entries| && entries[i].key == p;
      assert FreeOf(p, part);
    }
  }

  lemma {:induction false} JoinSize(p: seq<string>, k: nat)
    requires p != [] && forall i :: 0 <= i < |p| ==> |p[i]| <= k
    ensures |Join(p)| <= |p| * (k + 1)
    decreases |p|
  {
    if |p| > 1 {
      JoinSize(p[1..], k);
    }
  }

  lemma {:induction false} JoinLetters(p: seq<string>, c: char)
    requires c != '/' && forall i :: 0 <= i < |p| ==> c !in p[i]
    ensures c !in Join(p)
    decreases |p|
  {
    if |p| > 1 {
      JoinLetters(p[1..], c);
    }
  }

  /** Short paths of tame components are accepted and in view. */
  lemma TamePath(key: Path)
    requires 1 <= |key| <= 5 && key[0] in ROOT_FOLDERS && forall i :: 0 <= i < |key| ==> IsTame(key[i]) && (i > 0 ==> key[i] !in SKIPPED)
    ensures PathAccepted(key) && InView(key) && key[0] in ROOT_FOLDERS
  {
    JoinSize(key, 64);
    JoinLetters(key, '\0');
    JoinLetters(key, '\\');
  }

  lemma HomeIsTame()
    ensures IsTame(HOME) && HOME in ROOT_FOLDERS
  {
  }

  lemma ShortIsTame(part: string)
    requires |part| == 1 && part[0] != '/' && part[0] != '.' && part[0] != '\0' && part[0] != '\\'
    ensures IsTame(part) && part !in SKIPPED
  {
  }

  /** A prefix of a key at `scripts/part` is `scripts` itself, or new. */
  lemma PrefixIsNew(entries: seq<Entry>, part: string, key: Path, k: nat)
    requires Free(entries, part) && [HOME] in Parents(InputsOf(entries)) && Parents(InputsOf(entries)) !! InputsOf(entries).Keys
    requires |key| > 1 && key[0] == HOME && key[1] == part && 0 < k <= |key|
    ensures key[..k] !in InputsOf(entries) && (key[..k] in Parents(InputsOf(entries)) <==> k == 1)
  {
    var q := key[..k];
    FreePaths(entries, part, q);
    assert k == 1 ==> q == [HOME];
  }

  lemma KeyIsNew(entries: seq<Entry>, part: string, key: Path)
    requires Free(entries, part) && [HOME] in Parents(InputsOf(entries)) && Parents(InputsOf(entries)) !! InputsOf(entries).Keys
    requires |key| > 1 && key[0] == HOME && key[1] == part
    ensures IsNew(InputsOf(entries), key)
  {
    assert key[..|key|] == key;
    PrefixIsNew(entries, part, key, |key|);
    forall q | q in PrefixesOf(key)
      ensures q !in InputsOf(entries) && q != key
    {
      var k :| 0 < k < |key| && q == key[..k];
      PrefixIsNew(entries, part, key, k);
    }
  }

  lemma ManyParents(entries: seq<Entry>, part: string, key: Path)
    requires Free(entries, part) && [HOME] in Parents(InputsOf(entries)) && Parents(InputsOf(entries)) !! InputsOf(entries).Keys
    requires |key| > 1 && key[0] == HOME && key[1] == part
    ensures |Parents(InputsOf(entries)) + PrefixesOf(key)| == |Parents(InputsOf(entries))| + |key| - 2
  {
    LongerSize(key, |key| - 1);
    LongerAreNew(entries, part, key);
    OthersAreKnown(entries, key);
    AddedSize(Parents(InputsOf(entries)), PrefixesOf(key), Longer(key, |key| - 1));
  }

  lemma LongerAreNew(entries: seq<Entry>, part: string, key: Path)
    requires Free(entries, part) && [HOME] in Parents(InputsOf(entries)) && Parents(InputsOf(entries)) !! InputsOf(entries).Keys
    requires |key| > 1 && key[0] == HOME && key[1] == part
    ensures Longer(key, |key| - 1) !! Parents(InputsOf(entries)) && Longer(key, |key| - 1) <= PrefixesOf(key)
  {
    forall k | 2 <= k <= |key| - 1
      ensures key[..k] !in Parents(InputsOf(entries)) && key[..k] in PrefixesOf(key)
    {
      PrefixIsNew(entries, part, key, k);
    }
  }

  lemma OthersAreKnown(entries: seq<Entry>, key: Path)
    requires [HOME] in Parents(InputsOf(entries)) && |key| > 1 && key[0] == HOME
    ensures PrefixesOf(key) <= Parents(InputsOf(entries)) + Longer(key, |key| - 1)
  {
    assert key[..1] == [HOME];
  }

  lemma AddedSize(known: set<Path>, all: set<Path>, added: set<Path>)
    requires added !! known && added <= all <= known + added
    ensures |known + all| == |known| + |added|
  {
    assert known + all == known + added;
  }

  /** The prefixes of `key` of length two up to `n`. */
  ghost function Longer(key: Path, n: nat): set<Path>
    requires n <= |key|
  {
    set k | 2 <= k <= n :: key[..k]
  }

  lemma {:induction false} LongerSize(key: Path, n: nat)
    requires 1 <= n <= |key|
    ensures |Longer(key, n)| == n - 1
  {
    if n > 1 {
      LongerSize(key, n - 1);
      assert forall k :: 2 <= k < n ==> |key[..k]| == k;
      assert Longer(key, n) == Longer(key, n - 1) + {key[..n]};
    }
  }

  /** A name at or below `scripts/part` adds itself and the directories below `scripts`. */
  lemma NameAdded(entries: seq<Entry>, required: set<Path>, part: string, e: Entry)
    requires Sourced(entries) && Admissible(entries, required) && |entries| < MAX_ENTRIES && Free(entries, part) && Homed(entries)
    requires IsLight(e.item) && PathAccepted(e.key) && InView(e.key) && |e.key| > 1 && e.key[0] == HOME && e.key[1] == part
    requires LinksAllowed(InputsOf(entries + [e]), Parents(InputsOf(entries + [e])))
    ensures var more := entries + [e];
            Sourced(more) && Admissible(more, required) && Homed(more) && Size(more) == Size(entries) + |e.key| - 1
  {
    HomeIsTame();
    KeyIsNew(entries, part, e.key);
    KeyAdded(entries, required, e);
    SizeGrows(entries, part, e);
  }

  lemma SizeGrows(entries: seq<Entry>, part: string, e: Entry)
    requires Free(entries, part) && [HOME] in Parents(InputsOf(entries)) && Parents(InputsOf(entries)) !! InputsOf(entries).Keys
    requires |e.key| > 1 && e.key[0] == HOME && e.key[1] == part
    ensures Size(entries + [e]) == Size(entries) + |e.key| - 1
  {
    KeyIsNew(entries, part, e.key);
    InputsGrow(entries, e, entries + [e]);
    ManyParents(entries, part, e.key);
    OneName(InputsOf(entries), e.key, e.item);
  }

  lemma FileAdded(entries: seq<Entry>, required: set<Path>, part: string, e: Entry)
    requires Sourced(entries) && AllFiles(entries) && Admissible(entries, required) && |entries| < MAX_ENTRIES
    requires Free(entries, part) && Homed(entries)
    requires IsEmptyFile(e.item) && PathAccepted(e.key) && InView(e.key) && |e.key| > 1 && e.key[0] == HOME && e.key[1] == part
    ensures var more := entries + [e];
            Sourced(more) && AllFiles(more) && Admissible(more, required) && Homed(more) && Size(more) == Size(entries) + |e.key| - 1
  {
    KeyIsNew(entries, part, e.key);
    MoreFilesAllowed(entries, e);
    NameAdded(entries, required, part, e);
  }

  /** Any new file in a root folder may be added. */
  lemma PlainAdded(entries: seq<Entry>, required: set<Path>, e: Entry)
    requires Sourced(entries) && AllFiles(entries) && Admissible(entries, required) && |entries| < MAX_ENTRIES
    requires IsEmptyFile(e.item) && PathAccepted(e.key) && e.key[0] in ROOT_FOLDERS && InView(e.key) && IsNew(InputsOf(entries), e.key)
    ensures var more := entries + [e];
            Sourced(more) && AllFiles(more) && Admissible(more, required)
  {
    MoreFilesAllowed(entries, e);
    KeyAdded(entries, required, e);
  }

  lemma MoreFilesAllowed(entries: seq<Entry>, e: Entry)
    requires DistinctKeys(entries) && AllFiles(entries) && e.item.File? && e.key !in InputsOf(entries)
    ensures AllFiles(entries + [e]) && LinksAllowed(InputsOf(entries + [e]), Parents(InputsOf(entries + [e])))
  {
    DistinctMore(entries, e, entries + [e]);
    FilesAllowed(entries + [e]);
  }

  lemma OneName(inputs: Inputs, key: Path, item: Item)
    requires key !in inputs
    ensures |inputs[key := item]| == |inputs| + 1
  {
    assert inputs[key := item].Keys == inputs.Keys + {key};
  }

  lemma {:induction false} EmptyBytes(entries: seq<Entry>)
    requires forall i :: 0 <= i < |entries| ==> BytesOf(entries[i].item) == 0
    ensures Bytes(entries) == 0
  {
    if entries != [] {
      EmptyBytes(entries[..|entries| - 1]);
    }
  }

  /** Every item satisfies what all entries satisfy. */
  lemma {:induction false} ItemsSatisfy(entries: seq<Entry>, f: Item -> bool)
    requires forall i :: 0 <= i < |entries| ==> f(entries[i].item)
    ensures forall p :: p in InputsOf(entries) ==> f(InputsOf(entries)[p])
  {
    if entries != [] {
      ItemsSatisfy(entries[..|entries| - 1], f);
    }
  }
}
