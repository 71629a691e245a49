/** The inventory part of `validate_manifests`, and the round trip from manifest to tree and back. */
module Staging {
  import opened Outcome
  import opened Text
  import opened RelativePath
  import opened LinkResolution
  import opened StagedTree

  const MAX_FILE := 16 * 1024 * 1024
  const MAX_INPUT_BYTES := 256 * 1024 * 1024

  const ROOT_FILES: set<string> := {
    "package.json", "pnpm-lock.yaml", "pnpm-workspace.yaml", "tsconfig.base.json",
    "tsconfig.typecheck.json", "tsconfig.sdk-fence.json", "bunfig.toml"}

  const ROOT_FOLDERS: set<string> := {"packages", "scripts", "node_modules"}

  /** Any text, cut at its slashes; `Join` gives the text back. */
  type Key = p: Path | |p| >= 1 && forall i :: 0 <= i < |p| ==> '/' !in p[i] witness [""]

  datatype Entry = Entry(key: Key, item: Item)

  datatype Refusal = InventorySize | ClosurePath | InputRoot | FileShape | LinkShape | RequiredMissing | PrefixCollision
                   | LinkOutside | LinkRefused(error: LinkError)

  datatype Admitted = Admitted(inputs: Inputs, directories: set<Path>, total: nat)

  predicate IsHash(value: string) {
    |value| == 64 && forall i :: 0 <= i < |value| ==> ('0' <= value[i] <= '9' || 'a' <= value[i] <= 'f')
  }

  predicate RootAllowed(key: Key) {
    Join(key) in ROOT_FILES || key[0] in ROOT_FOLDERS
  }

  predicate ShapeAllowed(item: Item) {
    match item
    case File(sha256, bytes) => IsHash(sha256) && bytes <= MAX_FILE
    case Symlink(target) => target != "" && |target| <= MAX_NAME && '\0' !in target && '\\' !in target && !IsAbsolute(target)
  }

  /** The checks on one entry, in their order. */
  function Objection(e: Entry): (o: Option<Refusal>)
    ensures o.None? <==> IsRelativeName(Join(e.key)) && RootAllowed(e.key) && ShapeAllowed(e.item)
  {
    if !IsRelativeName(Join(e.key)) then Some(ClosurePath)
    else if !RootAllowed(e.key) then Some(InputRoot)
    else if !ShapeAllowed(e.item) then Some(if e.item.File? then FileShape else LinkShape)
    else None
  }

  ghost predicate DistinctKeys(entries: seq<Entry>) {
    forall i, j :: 0 <= i < j < |entries| ==> entries[i].key != entries[j].key
  }

  function Bytes(entries: seq<Entry>): nat {
    if entries == [] then 0
    else
      var last := entries[|entries| - 1].item;
      Bytes(entries[..|entries| - 1]) + if last.File? then last.bytes else 0
  }

  /** The manifest as a map from paths. */
  function InputsOf(entries: seq<Entry>): Inputs {
    if entries == [] then map[]
    else
      var last := entries[|entries| - 1];
      InputsOf(entries[..|entries| - 1])[last.key := last.item]
  }

  /** Link `p` starts inside the root and resolves inside the closure. */
  ghost predicate LinkAllowed(inputs: Inputs, directories: set<Path>, p: Path) {
    IsLink(inputs, p) ==>
      && p != [] && !Escapes(Norm(Parent(p) + Parts(inputs[p].target)))
      && ResolveName(inputs, directories, p).Ok?
  }

  ghost predicate LinksAllowed(inputs: Inputs, directories: set<Path>) {
    forall p :: p in inputs ==> LinkAllowed(inputs, directories, p)
  }

  ghost predicate Unobjectionable(entries: seq<Entry>, objection: Entry -> Option<Refusal>) {
    forall i :: 0 <= i < |entries| ==> objection(entries[i]).None?
  }

  /** What the inventory checks together demand. */
  ghost predicate Admissible(entries: seq<Entry>, required: set<Path>) {
    && 1 <= |entries| <= MAX_ENTRIES
    && Unobjectionable(entries, Objection)
    && Bytes(entries) <= MAX_INPUT_BYTES && required <= InputsOf(entries).Keys
    && Parents(InputsOf(entries)) !! InputsOf(entries).Keys
    && LinksAllowed(InputsOf(entries), Parents(InputsOf(entries)))
  }

  // The same in full.

  /** A name of plain components at an allowed root, for a file of bounded size with a digest or a relative link. */
  ghost predicate Listed(e: Entry) {
    ListedName(e.key) && ListedItem(e.item)
  }

  ghost predicate ListedName(key: Key) {
    && (forall i :: 0 <= i < |key| ==> key[i] != "" && key[i] != "." && key[i] != "..")
    && |Join(key)| <= 4096 && '\0' !in Join(key) && '\\' !in Join(key)
    && (IsRootFile(Join(key)) || key[0] == "packages" || key[0] == "scripts" || key[0] == "node_modules")
  }

  ghost predicate ListedItem(item: Item) {
    match item
    case File(sha256, bytes) =>
      |sha256| == 64 && (forall i :: 0 <= i < 64 ==> '0' <= sha256[i] <= '9' || 'a' <= sha256[i] <= 'f') && bytes <= 16777216
    case Symlink(target) =>
      1 <= |target| <= 4096 && target[0] != '/' && '\0' !in target && '\\' !in target
  }

  ghost predicate IsRootFile(name: string) {
    || name == "package.json" || name == "pnpm-lock.yaml" || name == "pnpm-workspace.yaml" || name == "tsconfig.base.json"
    || name == "tsconfig.typecheck.json" || name == "tsconfig.sdk-fence.json" || name == "bunfig.toml"
  }

  /** No name lies inside another. */
  ghost predicate NoneInside(entries: seq<Entry>) {
    forall i, j, k :: 0 <= i < |entries| && 0 <= j < |entries| && 0 < k < |entries[i].key| ==> entries[i].key[..k] != entries[j].key
  }

  ghost predicate Acceptable(entries: seq<Entry>, required: set<Path>) {
    && 1 <= |entries| <= 20000 && (forall i :: 0 <= i < |entries| ==> Listed(entries[i])) && Bytes(entries) <= 268435456
    && (forall p :: p in required ==> exists i :: 0 <= i < |entries| && entries[i].key == p)
    && NoneInside(entries)
    && forall i :: 0 <= i < |entries| ==> LinkAllowed(InputsOf(entries), Parents(InputsOf(entries)), entries[i].key)
  }

  /** A manifest's paths are its keys, and with distinct keys each keeps its own item. */
  lemma {:induction false} InputsHave(entries: seq<Entry>)
    ensures forall i :: 0 <= i < |entries| ==> entries[i].key in InputsOf(entries)
    ensures forall p :: p in InputsOf(entries) ==> exists i :: 0 <= i < |entries| && entries[i].key == p
    ensures DistinctKeys(entries) ==> forall i :: 0 <= i < |entries| ==> InputsOf(entries)[entries[i].key] == entries[i].item
  {
    if entries != [] {
      var front := entries[..|entries| - 1];
      InputsHave(front);
      assert forall i :: 0 <= i < |front| ==> front[i] == entries[i];
    }
  }

  /** The directories added for one name. */
  function PrefixesOf(p: Path): set<Path> {
    set k | 0 < k < |p| :: p[..k]
  }

  lemma ParentsGrow(inputs: Inputs, p: Path, item: Item)
    ensures Parents(inputs[p := item]) == Parents(inputs) + PrefixesOf(p)
  {
    var more := inputs[p := item];
    assert forall q :: q in more <==> q in inputs || q == p;
  }

  /** The first loop of the checks: `objection` to each entry, the directories and the running total. */
  method CheckEntries(entries: seq<Entry>, objection: Entry -> Option<Refusal>) returns (r: Result<Admitted, Refusal>)
    ensures r.Ok? <==> Unobjectionable(entries, objection)
    ensures r.Ok? ==> r.value == Admitted(InputsOf(entries), Parents(InputsOf(entries)), Bytes(entries))
  {
    var inputs: Inputs, directories: set<Path>, total := map[], {}, 0;
    for i := 0 to |entries|
      invariant forall j :: 0 <= j < i ==> objection(entries[j]).None?
      invariant inputs == InputsOf(entries[..i]) && directories == Parents(inputs) && total == Bytes(entries[..i])
    {
      var e := entries[i];
      assert entries[..i + 1][..i] == entries[..i];
      var o := objection(e);
      if o.Some? {
        return Err(o.value);
      }
      ParentsGrow(inputs, e.key, e.item);
      directories := directories + PrefixesOf(e.key);
      inputs := inputs[e.key := e.item];
      total := total + if e.item.File? then e.item.bytes else 0;
    }
    assert entries[..|entries|] == entries;
    return Ok(Admitted(inputs, directories, total));
  }

  /** The first `n` keys pass a test. */
  ghost predicate KeysPass(test: Path -> bool, entries: seq<Entry>, n: nat)
    requires n <= |entries|
  {
    n == 0 || (KeysPass(test, entries, n - 1) && test(entries[n - 1].key))
  }

  lemma {:induction false} KeysPassMeans(test: Path -> bool, entries: seq<Entry>, n: nat)
    requires n <= |entries|
    ensures KeysPass(test, entries, n) <==> forall i :: 0 <= i < n ==> test(entries[i].key)
  {
    if n > 0 {
      KeysPassMeans(test, entries, n - 1);
    }
  }

  ghost function AllowedIn(inputs: Inputs, directories: set<Path>): Path -> bool {
    p => LinkAllowed(inputs, directories, p)
  }

  /** The links among the first `n` entries are allowed. */
  ghost predicate LinksAllowedTo(entries: seq<Entry>, inputs: Inputs, directories: set<Path>, n: nat)
    requires n <= |entries|
  {
    KeysPass(AllowedIn(inputs, directories), entries, n)
  }

  lemma LinksOfEntries(entries: seq<Entry>, inputs: Inputs, directories: set<Path>, n: nat)
    requires inputs == InputsOf(entries) && n <= |entries|
    ensures LinksAllowedTo(entries, inputs, directories, |entries|) <==> LinksAllowed(inputs, directories)
    ensures !LinksAllowedTo(entries, inputs, directories, n) ==> !LinksAllowed(inputs, directories)
    ensures n < |entries| ==> entries[n].key in inputs
  {
    var test := AllowedIn(inputs, directories);
    KeysPassMeans(test, entries, |entries|);
    KeysPassMeans(test, entries, n);
    InputsHave(entries);
    assert LinksAllowed(inputs, directories) <==> forall p :: p in inputs ==> test(p);
  }

  /** The second loop: every link stays inside and resolves. */
  method CheckLinks(entries: seq<Entry>, inputs: Inputs, directories: set<Path>) returns (refusal: Option<Refusal>)
    requires DistinctKeys(entries) && inputs == InputsOf(entries)
    ensures refusal.None? <==> LinksAllowed(inputs, directories)
  {
    for i := 0 to |entries|
      invariant LinksAllowedTo(entries, inputs, directories, i)
    {
      LinksOfEntries(entries, inputs, directories, i);
      refusal := CheckLink(inputs, directories, entries[i].key);
      if refusal.Some? {
        LinksOfEntries(entries, inputs, directories, i + 1);
        return;
      }
    }
    LinksOfEntries(entries, inputs, directories, |entries|);
    return None;
  }

  method CheckLink(inputs: Inputs, directories: set<Path>, p: Path) returns (refusal: Option<Refusal>)
    requires p in inputs && p != []
    ensures refusal.None? <==> LinkAllowed(inputs, directories, p)
  {
    match inputs[p]
    case File(_, _) =>
      return None;
    case Symlink(target) =>
      if Escapes(Norm(Parent(p) + Parts(target))) {
        return Some(LinkOutside);
      }
      var r := ResolveLink(p, inputs, directories);
      return if r.Err? then Some(LinkRefused(r.error)) else None;
  }

  lemma RootFilesMean(name: string)
    ensures name in ROOT_FILES <==> IsRootFile(name)
  {
  }

  lemma NamesMean(key: Key)
    ensures IsRelativeName(Join(key)) && RootAllowed(key)
            <==> ListedName(key)
  {
    PathAcceptedMeans(key);
    RootFilesMean(Join(key));
    DotIsNoRoot();
  }

  lemma ShapeMeans(item: Item)
    ensures ShapeAllowed(item) <==> ListedItem(item)
  {
  }

  lemma ListedMeans(e: Entry)
    ensures Objection(e).None? <==> Listed(e)
  {
    NamesMean(e.key);
    ShapeMeans(e.item);
  }

  lemma NoneInsideMeans(entries: seq<Entry>)
    ensures Parents(InputsOf(entries)) !! InputsOf(entries).Keys <==> NoneInside(entries)
  {
    var inputs := InputsOf(entries);
    InputsHave(entries);
    if NoneInside(entries) {
      forall p | p in Parents(inputs)
        ensures p !in inputs
      {
        var q, k :| q in inputs && 0 < k < |q| && p == q[..k];
        var i :| 0 <= i < |entries| && entries[i].key == q;
        assert forall j :: 0 <= j < |entries| ==> entries[i].key[..k] != entries[j].key;
      }
    } else {
      var i, j, k :| 0 <= i < |entries| && 0 <= j < |entries| && 0 < k < |entries[i].key| && entries[i].key[..k] == entries[j].key;
      assert entries[j].key in Parents(inputs) && entries[j].key in inputs;
    }
  }

  /** Word for word, the checks come to the same. */
  lemma {:induction false} AcceptableMeans(entries: seq<Entry>, required: set<Path>)
    ensures Admissible(entries, required) <==> Acceptable(entries, required)
  {
    NoneInsideMeans(entries);
    EachListed(entries, Objection);
    EachLinkAllowed(entries);
    RequiredListed(entries, required);
  }

  lemma EachListed(entries: seq<Entry>, objection: Entry -> Option<Refusal>)
    requires objection == Objection
    ensures Unobjectionable(entries, objection) <==> forall i :: 0 <= i < |entries| ==> Listed(entries[i])
  {
    forall i | 0 <= i < |entries|
      ensures objection(entries[i]).None? <==> Listed(entries[i])
    {
      ListedMeans(entries[i]);
    }
  }

  lemma EachLinkAllowed(entries: seq<Entry>)
    ensures LinksAllowed(InputsOf(entries), Parents(InputsOf(entries)))
            <==> forall i :: 0 <= i < |entries| ==> LinkAllowed(InputsOf(entries), Parents(InputsOf(entries)), entries[i].key)
  {
    InputsHave(entries);
  }

  lemma RequiredListed(entries: seq<Entry>, required: set<Path>)
    ensures required <= InputsOf(entries).Keys
            <==> forall p :: p in required ==> exists i :: 0 <= i < |entries| && entries[i].key == p
  {
    InputsHave(entries);
  }

  /**
    * The inventory checks accept exactly the admissible manifests, and hand back their paths and
    * directories. `required` names the files that must be listed.
    */
  method ValidateInputs(entries: seq<Entry>, required: set<Path>) returns (r: Result<Admitted, Refusal>)
    requires DistinctKeys(entries)
    ensures r.Ok? <==> Acceptable(entries, required)
    ensures r.Ok? <==> Admissible(entries, required)
    ensures r.Ok? ==> r.value.inputs == InputsOf(entries) && r.value.directories == Parents(InputsOf(entries))
  {
    AcceptableMeans(entries, required);
    if !(1 <= |entries| <= MAX_ENTRIES) {
      return Err(InventorySize);
    }
    r := CheckEntries(entries, Objection);
    if r.Err? {
      return;
    }
    var Admitted(inputs, directories, total) := r.value;
    if total > MAX_INPUT_BYTES || !(required <= inputs.Keys) {
      return Err(RequiredMissing);
    }
    if !(directories !! inputs.Keys) {
      return Err(PrefixCollision);
    }
    var refusal := CheckLinks(entries, inputs, directories);
    if refusal.Some? {
      return Err(refusal.value);
    }
  }

  // The round trip.

  /** The captured bytes have the digest and the size the manifest names. */
  ghost predicate DataMatches(inputs: Inputs, data: map<Path, seq<Byte>>, hash: seq<Byte> -> string) {
    forall p :: p in inputs && inputs[p].File? ==>
      inputs[p] == File(hash(DataAt(data, p)), |DataAt(data, p)|)
  }

  /** No name is a directory, and neither is empty. */
  ghost predicate Apart(inputs: Inputs, dirs: set<Path>) {
    [] !in inputs && [] !in dirs && dirs !! inputs.Keys
  }

  /** A path of a tree is a name or a directory it holds; only names are leaves. */
  lemma HeldIn(t: Node, inputs: Inputs, data: map<Path, seq<Byte>>, dirs: set<Path>, q: Path)
    requires Apart(inputs, dirs) && Holds(t, inputs, data, dirs, inputs.Keys)
    ensures q in NodePaths(t) <==> q in inputs || q in dirs
    ensures LeafAt(t, q) <==> q in inputs
    ensures q in inputs ==> View(t, q) == Some(Leaf(NodeFor(inputs[q], DataAt(data, q))))
    ensures q in dirs ==> View(t, q) == Some(Folder)
  {
    NodePathsSeen(t, q);
  }

  lemma SizeIn(t: Node, inputs: Inputs, data: map<Path, seq<Byte>>, dirs: set<Path>)
    requires Apart(inputs, dirs) && Holds(t, inputs, data, dirs, inputs.Keys)
    ensures |NodePaths(t)| == |inputs| + |dirs|
  {
    var paths, held := NodePaths(t), inputs.Keys + dirs;
    forall q
      ensures q in paths <==> q in held
    {
      HeldIn(t, inputs, data, dirs, q);
    }
    assert paths == held;
  }

  lemma ListingIn(t: Node, inputs: Inputs, data: map<Path, seq<Byte>>, dirs: set<Path>, hash: seq<Byte> -> string)
    requires Apart(inputs, dirs) && DataMatches(inputs, data, hash) && Holds(t, inputs, data, dirs, inputs.Keys)
    ensures Listing(t, [], hash) == inputs
  {
    var listing := Listing(t, [], hash);
    forall q
      ensures q in listing <==> q in inputs
      ensures q in listing ==> listing[q] == inputs[q]
    {
      HeldIn(t, inputs, data, dirs, q);
      InListing(t, [], q);
      assert q[0..] == q;
    }
  }

  lemma SeparateIsApart(inputs: Inputs)
    requires Separate(inputs)
    ensures Apart(inputs, Parents(inputs))
  {
    assert forall p: Path, k :: 0 < k < |p| ==> p[..k] != [];
  }

  /** The same for the staged tree, whose directories are those of its names. */
  lemma HeldAt(t: Node, inputs: Inputs, data: map<Path, seq<Byte>>, q: Path)
    requires Separate(inputs) && Holds(t, inputs, data, Parents(inputs), inputs.Keys)
    ensures q in NodePaths(t) <==> q in inputs || q in Parents(inputs)
    ensures LeafAt(t, q) <==> q in inputs
    ensures q in inputs ==> View(t, q) == Some(Leaf(NodeFor(inputs[q], DataAt(data, q))))
  {
    SeparateIsApart(inputs);
    HeldIn(t, inputs, data, Parents(inputs), q);
  }

  lemma TreeSize(t: Node, inputs: Inputs, data: map<Path, seq<Byte>>)
    requires Separate(inputs) && Holds(t, inputs, data, Parents(inputs), inputs.Keys)
    ensures |NodePaths(t)| == |inputs| + |Parents(inputs)|
  {
    SeparateIsApart(inputs);
    SizeIn(t, inputs, data, Parents(inputs));
  }

  lemma TreeListing(t: Node, inputs: Inputs, data: map<Path, seq<Byte>>, hash: seq<Byte> -> string)
    requires Separate(inputs) && DataMatches(inputs, data, hash)
    requires Holds(t, inputs, data, Parents(inputs), inputs.Keys)
    ensures Listing(t, [], hash) == inputs
  {
    SeparateIsApart(inputs);
    ListingIn(t, inputs, data, Parents(inputs), hash);
  }

  /** Text that passes the name check of the walk. */
  ghost predicate PathAccepted(p: Path) {
    p != [] && AllPlain(p) && (forall i :: 0 <= i < |p| ==> '/' !in p[i])
    && |Join(p)| <= MAX_NAME && '\0' !in Join(p) && '\\' !in Join(p)
  }

  lemma PathAcceptedMeans(p: Key)
    ensures PathAccepted(p) <==> IsRelativeName(Join(p)) && p != ["."]
  {
    assert forall s :: s in p ==> '/' !in s;
    SplitOfJoin('/', p);
    RelativeNameMeans(Join(p));
    if Join(p) == "." {
      SplitPlain('/', ".");
    }
    assert p == ["."] ==> Join(p) == ".";
  }

  lemma {:induction false} JoinPrefix(p: Path, k: nat)
    requires 0 < k <= |p|
    ensures Join(p[..k]) <= Join(p)
  {
    if k > 1 {
      JoinPrefix(p[1..], k - 1);
      assert p[..k][1..] == p[1..][..k - 1];
    } else {
      assert p[..k] == [p[0]];
    }
  }

  lemma PrefixAccepted(p: Path, k: nat)
    requires PathAccepted(p) && 0 < k <= |p|
    ensures PathAccepted(p[..k])
  {
    JoinPrefix(p, k);
    assert forall c :: c in Join(p[..k]) ==> c in Join(p);
  }

  lemma DotIsNoRoot()
    ensures !RootAllowed(["."])
  {
    assert Join(["."]) == ".";
    assert forall n :: n in ROOT_FILES ==> |n| > 1;
    assert forall n :: n in ROOT_FOLDERS ==> |n| > 1;
  }

  /** The paths of an inventory and their directories all pass the walk's name check. */
  ghost predicate NamesPass(accepts: string -> bool, inputs: Inputs) {
    forall p :: p in inputs || p in Parents(inputs) ==> accepts(Join(p))
  }

  lemma EntriesAccepted(entries: seq<Entry>, i: nat)
    requires i < |entries| && Unobjectionable(entries, Objection)
    ensures PathAccepted(entries[i].key)
    ensures entries[i].item.File? ==> entries[i].item.bytes <= MAX_FILE
  {
    DotIsNoRoot();
    PathAcceptedMeans(entries[i].key);
  }

  lemma AcceptedNamesPass(inputs: Inputs)
    requires forall p :: p in inputs ==> PathAccepted(p)
    ensures NamesPass(IsRelativeName, inputs)
  {
    forall p | p in inputs || p in Parents(inputs)
      ensures IsRelativeName(Join(p))
    {
      if p !in inputs {
        var q, k :| q in inputs && 0 < k < |q| && p == q[..k];
        PrefixAccepted(q, k);
      }
      PathAcceptedMeans(p);
    }
  }

  lemma NothingRefused(accepts: string -> bool, t: Node, inputs: Inputs, data: map<Path, seq<Byte>>, hash: seq<Byte> -> string)
    requires Separate(inputs) && DataMatches(inputs, data, hash)
    requires Holds(t, inputs, data, Parents(inputs), inputs.Keys)
    requires NamesPass(accepts, inputs)
    requires forall p :: p in inputs && inputs[p].File? ==> inputs[p].bytes <= MAX_FILE
    ensures !Refusable(InventoryCheck(accepts), t, [])
  {
    forall q | q in NodePaths(t)
      ensures !Refused(InventoryCheck(accepts), t, [], q)
    {
      HeldAt(t, inputs, data, q);
      assert [] + q == q;
      InventoryCheckMeans(accepts, q, View(t, q).value);
    }
  }

  /** What an admissible manifest guarantees about its paths. */
  lemma {:induction false} AdmissiblePaths(entries: seq<Entry>, required: set<Path>)
    requires DistinctKeys(entries) && Admissible(entries, required)
    ensures var inputs := InputsOf(entries);
            && Separate(inputs) && NamesPass(IsRelativeName, inputs)
            && forall p :: p in inputs && inputs[p].File? ==> inputs[p].bytes <= MAX_FILE
  {
    var inputs := InputsOf(entries);
    InputsHave(entries);
    forall p | p in inputs
      ensures PathAccepted(p) && (inputs[p].File? ==> inputs[p].bytes <= MAX_FILE)
    {
      var i :| 0 <= i < |entries| && entries[i].key == p;
      EntriesAccepted(entries, i);
    }
    AcceptedNamesPass(inputs);
  }

  /** Staging and the walk back, on any inventory whose names pass the check. */
  method RoundTrip(inputs: Inputs, names: seq<Path>, directories: set<Path>, data: map<Path, seq<Byte>>,
                   hash: seq<Byte> -> string, accepts: string -> bool)
    returns (r: Result<Inputs, WalkFault>)
    requires forall p :: p in names <==> p in inputs
    requires forall i, j :: 0 <= i < j < |names| ==> names[i] != names[j]
    requires directories == Parents(inputs) && Separate(inputs) && DataMatches(inputs, data, hash)
    requires NamesPass(accepts, inputs) && forall p :: p in inputs && inputs[p].File? ==> inputs[p].bytes <= MAX_FILE
    ensures r.Ok? <==> |inputs| + |Parents(inputs)| <= MAX_VISITS
    ensures r.Ok? ==> r.value == inputs
  {
    var staged := Stage(inputs, names, directories, data);
    var tree := staged.value;
    assert tree.Directory? by { assert View(tree, []) == Some(Folder); }
    TreeSize(tree, inputs, data);
    TreeListing(tree, inputs, data, hash);
    NothingRefused(accepts, tree, inputs, data, hash);
    r := InventoryStaged(tree, hash, accepts);
  }

  function KeysOf(entries: seq<Entry>): seq<Path> {
    seq(|entries|, i requires 0 <= i < |entries| => entries[i].key)
  }

  lemma KeysAreNames(entries: seq<Entry>)
    requires DistinctKeys(entries)
    ensures forall p :: p in KeysOf(entries) <==> p in InputsOf(entries)
    ensures forall i, j :: 0 <= i < j < |entries| ==> KeysOf(entries)[i] != KeysOf(entries)[j]
  {
    var names := KeysOf(entries);
    InputsHave(entries);
    assert forall i :: 0 <= i < |names| ==> names[i] == entries[i].key;
  }
}
