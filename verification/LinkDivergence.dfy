/** A source that passes `check_snapshot` with a link whose resolution is not where the kernel goes. */
module LinkDivergence {
  import opened Outcome
  import opened RelativePath
  import opened LinkResolution
  import opened StagedTree
  import opened Staging
  import opened CurrentInputs
  import opened Snapshot
  import opened SourceTrees
  import opened Workspace

  const DIR: Path := [HOME]
  const INTO: Path := [HOME, "e", "f"]

  const Z_KEY: Key := [HOME, "z"]
  const X_KEY: Key := [HOME, "e", "f", "x"]
  const D_KEY: Key := [HOME, "d"]
  const L_KEY: Key := [HOME, "l"]

  /** `scripts/d -> e/f` and `scripts/l -> d/../z`. */
  const D_PARTS: seq<string> := ["e", "f"]
  const L_PARTS: seq<string> := ["d", "..", "z"]

  function LinkTo(parts: seq<string>): Item {
    Symlink(Join(parts))
  }

  /** Parts that make a well-formed relative target. */
  ghost predicate TargetParts(parts: seq<string>) {
    && 1 <= |parts| <= 3
    && forall i :: 0 <= i < |parts| ==>
         |parts[i]| in {1, 2} && parts[i] != "." && '/' !in parts[i] && '\0' !in parts[i] && '\\' !in parts[i]
  }

  lemma LinkIsLight(parts: seq<string>)
    requires TargetParts(parts)
    ensures Parts(Join(parts)) == parts && !IsAbsolute(Join(parts)) && IsLight(LinkTo(parts))
  {
    PartsOfJoin(parts);
    JoinSize(parts, 2);
    JoinLetters(parts, '\0');
    JoinLetters(parts, '\\');
    FirstLetter(parts);
  }

  lemma FirstLetter(parts: seq<string>)
    requires parts != [] && parts[0] != ""
    ensures Join(parts) != "" && Join(parts)[0] == parts[0][0]
  {
  }

  lemma BothTargets()
    ensures TargetParts(D_PARTS) && TargetParts(L_PARTS)
  {
  }

  // Two files and two links more.

  function WithZ(entries: seq<Entry>, item: Item): seq<Entry> {
    entries + [Entry(Z_KEY, item)]
  }

  function WithFiles(entries: seq<Entry>, item: Item): seq<Entry> {
    WithZ(entries, item) + [Entry(X_KEY, item)]
  }

  function WithD(entries: seq<Entry>, item: Item): seq<Entry> {
    WithFiles(entries, item) + [Entry(D_KEY, LinkTo(D_PARTS))]
  }

  function WithBoth(entries: seq<Entry>, item: Item): seq<Entry> {
    WithD(entries, item) + [Entry(L_KEY, LinkTo(L_PARTS))]
  }

  lemma KeysAreTame()
    ensures forall key :: key in {Z_KEY, X_KEY, D_KEY, L_KEY} ==> PathAccepted(key) && InView(key) && key[0] in ROOT_FOLDERS
  {
    HomeIsTame();
    ShortIsTame("z");
    ShortIsTame("e");
    ShortIsTame("f");
    ShortIsTame("x");
    ShortIsTame("d");
    ShortIsTame("l");
    TamePath(Z_KEY);
    TamePath(X_KEY);
    TamePath(D_KEY);
    TamePath(L_KEY);
  }

  lemma FreeMore(entries: seq<Entry>, e: Entry, part: string)
    requires Free(entries, part) && FreeOf(e.key, part)
    ensures Free(entries + [e], part)
  {
  }

  /** A manifest of files in which the four names are free. */
  ghost predicate Open(entries: seq<Entry>, required: set<Path>) {
    && Sourced(entries) && AllFiles(entries) && Admissible(entries, required) && Homed(entries) && |entries| + 4 <= MAX_ENTRIES
    && Free(entries, "z") && Free(entries, "e") && Free(entries, "d") && Free(entries, "l")
  }

  /** The files are there, and the links are not. */
  ghost predicate HasFiles(es: seq<Entry>, required: set<Path>, size: nat) {
    && Sourced(es) && AllFiles(es) && Admissible(es, required) && Homed(es) && Size(es) == size && |es| + 2 <= MAX_ENTRIES
    && Free(es, "d") && Free(es, "l") && Z_KEY in InputsOf(es) && INTO in Parents(InputsOf(es))
  }

  lemma ZAdded(entries: seq<Entry>, required: set<Path>, item: Item)
    requires Open(entries, required) && IsEmptyFile(item)
    ensures var es := WithZ(entries, item);
            && Sourced(es) && AllFiles(es) && Admissible(es, required) && Homed(es) && Size(es) == Size(entries) + 1
            && |es| + 3 <= MAX_ENTRIES && Free(es, "e") && Free(es, "d") && Free(es, "l")
  {
    KeysAreTame();
    FileAdded(entries, required, "z", Entry(Z_KEY, item));
    FreeMore(entries, Entry(Z_KEY, item), "e");
    FreeMore(entries, Entry(Z_KEY, item), "d");
    FreeMore(entries, Entry(Z_KEY, item), "l");
  }

  lemma XAdded(entries: seq<Entry>, required: set<Path>, item: Item)
    requires Open(entries, required) && IsEmptyFile(item)
    ensures HasFiles(WithFiles(entries, item), required, Size(entries) + 4)
  {
    var es := WithZ(entries, item);
    ZAdded(entries, required, item);
    KeysAreTame();
    FileAdded(es, required, "e", Entry(X_KEY, item));
    FreeMore(es, Entry(X_KEY, item), "d");
    FreeMore(es, Entry(X_KEY, item), "l");
    FilesAreThere(entries, item);
  }

  lemma FilesAreThere(entries: seq<Entry>, item: Item)
    ensures Z_KEY in InputsOf(WithFiles(entries, item)) && INTO in Parents(InputsOf(WithFiles(entries, item)))
  {
    var es := WithFiles(entries, item);
    InputsHave(es);
    assert es[|es| - 2].key == Z_KEY && es[|es| - 1].key == X_KEY;
    assert X_KEY[..3] == INTO;
  }

  // Its links.

  ghost predicate OnlyTheseLinks(inputs: Inputs) {
    forall p :: IsLink(inputs, p) ==> p == D_KEY || p == L_KEY
  }

  lemma PlacesAreClear(inputs: Inputs)
    requires OnlyTheseLinks(inputs)
    ensures Clear(inputs, DIR) && Clear(inputs, INTO) && !IsLink(inputs, Z_KEY) && !IsLink(inputs, [HOME, "e", "z"])
  {
    HomeIsTame();
    assert INTO[..3] == INTO && |INTO[..1]| == 1 && INTO[..2] == [HOME, "e"] && |DIR[..1]| == 1;
  }

  lemma DTarget()
    ensures Norm(DIR + D_PARTS) == INTO && !Escapes(INTO) && D_KEY == DIR + ["d"] && L_KEY == DIR + ["l"] && Z_KEY == DIR + ["z"]
  {
    HomeIsTame();
    NormPlain(INTO);
    assert DIR + D_PARTS == INTO;
  }

  lemma DIsAllowed(inputs: Inputs, directories: set<Path>)
    requires OnlyTheseLinks(inputs) && D_KEY in inputs && inputs[D_KEY] == LinkTo(D_PARTS) && INTO in directories
    ensures LinkAllowed(inputs, directories, D_KEY)
  {
    BothTargets();
    LinkIsLight(D_PARTS);
    PlacesAreClear(inputs);
    DTarget();
    assert Parent(D_KEY) == DIR;
    StraightLink(inputs, directories, DIR, "d", INTO);
  }

  /** `scripts/l` turns back over `scripts/d`. */
  lemma LTurnsOverD(inputs: Inputs)
    requires OnlyTheseLinks(inputs) && D_KEY in inputs && inputs[D_KEY] == LinkTo(D_PARTS)
    requires L_KEY in inputs && inputs[L_KEY] == LinkTo(L_PARTS)
    ensures TurnsOverLink(inputs, DIR, "l", "d", "z", INTO)
  {
    BothTargets();
    LinkIsLight(D_PARTS);
    LinkIsLight(L_PARTS);
    PlacesAreClear(inputs);
    DTarget();
    assert INTO[..2] + ["z"] == [HOME, "e", "z"];
  }

  lemma LIsAllowed(inputs: Inputs, directories: set<Path>)
    requires OnlyTheseLinks(inputs) && D_KEY in inputs && inputs[D_KEY] == LinkTo(D_PARTS)
    requires L_KEY in inputs && inputs[L_KEY] == LinkTo(L_PARTS) && Z_KEY in inputs
    ensures LinkAllowed(inputs, directories, L_KEY)
  {
    BothTargets();
    LinkIsLight(L_PARTS);
    LTurnsOverD(inputs);
    DTarget();
    TextCancels(inputs, directories, DIR, "l", "d", "z", INTO);
    CancelsAsText(DIR, "d", "z");
    assert Parent(L_KEY) == DIR;
  }

  lemma FilesHaveNoLinks(entries: seq<Entry>, p: Path)
    requires AllFiles(entries)
    ensures !IsLink(InputsOf(entries), p)
  {
    ItemsSatisfy(entries, (x: Item) => x.File?);
  }

  /** Ready for `scripts/l`: the files and `scripts/d` are there. */
  ghost predicate HasD(es: seq<Entry>, required: set<Path>, size: nat) {
    && Sourced(es) && Admissible(es, required) && Homed(es) && Size(es) == size && |es| < MAX_ENTRIES && Free(es, "l")
    && OnlyTheseLinks(InputsOf(es)) && D_KEY in InputsOf(es) && InputsOf(es)[D_KEY] == LinkTo(D_PARTS)
    && Z_KEY in InputsOf(es) && INTO in Parents(InputsOf(es))
  }

  ghost predicate HasBoth(es: seq<Entry>, required: set<Path>, size: nat) {
    && Sourced(es) && Admissible(es, required) && Size(es) == size
    && OnlyTheseLinks(InputsOf(es)) && D_KEY in InputsOf(es) && InputsOf(es)[D_KEY] == LinkTo(D_PARTS)
    && L_KEY in InputsOf(es) && InputsOf(es)[L_KEY] == LinkTo(L_PARTS) && Z_KEY in InputsOf(es)
  }

  lemma DAdded(less: seq<Entry>, required: set<Path>, size: nat)
    requires HasFiles(less, required, size)
    ensures HasD(less + [Entry(D_KEY, LinkTo(D_PARTS))], required, size + 1)
  {
    var e := Entry(D_KEY, LinkTo(D_PARTS));
    InputsGrow(less, e, less + [e]);
    DLinks(less, InputsOf(less + [e]), Parents(InputsOf(less + [e])));
    LinkIsFit(e);
    NameAdded(less, required, "d", e);
    FreeMore(less, e, "l");
  }

  lemma DLinks(less: seq<Entry>, inputs: Inputs, directories: set<Path>)
    requires AllFiles(less) && inputs == InputsOf(less)[D_KEY := LinkTo(D_PARTS)] && INTO in directories
    ensures OnlyTheseLinks(inputs) && LinksAllowed(inputs, directories)
  {
    forall p | IsLink(inputs, p)
      ensures p == D_KEY
    {
      FilesHaveNoLinks(less, p);
    }
    DIsAllowed(inputs, directories);
  }

  lemma LinkIsFit(e: Entry)
    requires e == Entry(D_KEY, LinkTo(D_PARTS)) || e == Entry(L_KEY, LinkTo(L_PARTS))
    ensures IsLight(e.item) && PathAccepted(e.key) && InView(e.key)
  {
    BothTargets();
    LinkIsLight(D_PARTS);
    LinkIsLight(L_PARTS);
    KeysAreTame();
  }

  lemma LAdded(less: seq<Entry>, required: set<Path>, size: nat)
    requires HasD(less, required, size)
    ensures HasBoth(less + [Entry(L_KEY, LinkTo(L_PARTS))], required, size + 1)
  {
    var e := Entry(L_KEY, LinkTo(L_PARTS));
    var es := less + [e];
    InputsGrow(less, e, es);
    LLinks(InputsOf(less), InputsOf(es), Parents(InputsOf(es)));
    LinkIsFit(e);
    NameAdded(less, required, "l", e);
  }

  lemma KeysDiffer()
    ensures D_KEY != L_KEY && Z_KEY != L_KEY
  {
    assert D_KEY[1][0] == 'd' && L_KEY[1][0] == 'l' && Z_KEY[1][0] == 'z';
  }

  lemma LLinks(less: Inputs, inputs: Inputs, directories: set<Path>)
    requires OnlyTheseLinks(less) && D_KEY in less && less[D_KEY] == LinkTo(D_PARTS) && Z_KEY in less
    requires inputs == less[L_KEY := LinkTo(L_PARTS)] && INTO in directories
    ensures OnlyTheseLinks(inputs) && LinksAllowed(inputs, directories)
    ensures inputs[D_KEY] == LinkTo(D_PARTS)
  {
    KeysDiffer();
    forall p | IsLink(inputs, p)
      ensures p == D_KEY || p == L_KEY
    {
      assert p != L_KEY ==> IsLink(less, p);
    }
    DIsAllowed(inputs, directories);
    LIsAllowed(inputs, directories);
  }

  /** Where the two lead. */
  lemma BothPart(inputs: Inputs, directories: set<Path>)
    requires OnlyTheseLinks(inputs) && D_KEY in inputs && inputs[D_KEY] == LinkTo(D_PARTS)
    requires L_KEY in inputs && inputs[L_KEY] == LinkTo(L_PARTS) && Z_KEY in inputs
    ensures ResolveName(inputs, directories, L_KEY) == Ok(Z_KEY)
    ensures KernelWalk(inputs, [], L_KEY, MAX_ROUNDS - 1) == Ok([HOME, "e", "z"])
  {
    DTarget();
    LTurnsOverD(inputs);
    TextAndKernelPart(inputs, directories, DIR, "l", "d", "z", INTO);
    assert INTO[..|INTO| - 1] + ["z"] == [HOME, "e", "z"];
  }

  lemma BothAdded(entries: seq<Entry>, required: set<Path>, item: Item)
    requires Open(entries, required) && IsEmptyFile(item)
    ensures HasBoth(WithBoth(entries, item), required, Size(entries) + 6)
  {
    XAdded(entries, required, item);
    DAdded(WithFiles(entries, item), required, Size(entries) + 4);
    LAdded(WithD(entries, item), required, Size(entries) + 5);
  }

  lemma BothFollow(entries: seq<Entry>, item: Item)
    ensures var more := WithBoth(entries, item);
            && |entries| <= |more| && more[..|entries|] == entries
            && forall i :: |entries| <= i < |more| ==> more[i].item.Symlink? || more[i].item == item
  {
  }

  /**
    * Every admissible manifest of files in which `scripts/z`, `e`, `d` and `l` are free has an extension
    * whose source passes `check_snapshot`, and in it a link that resolves to `scripts/z` while the kernel
    * arrives at `scripts/e/z`. Six paths are added, so if there is room for them the source is staged too.
    */
  lemma {:induction false} CheckedSourceParts(entries: seq<Entry>, required: set<Path>, data: map<Path, seq<Byte>>,
                                              hash: seq<Byte> -> string)
    returns (more: seq<Entry>, src: Node)
    requires Sourced(entries) && AllFiles(entries) && Admissible(entries, required) && FoldersFilled(InputsOf(entries))
    requires Free(entries, "z") && Free(entries, "e") && Free(entries, "d") && Free(entries, "l")
    requires |entries| + 4 <= MAX_ENTRIES && Size(entries) + 6 <= MAX_VISITS + 10
    requires IsHash(hash([])) && data.Keys <= InputsOf(entries).Keys && DataMatches(InputsOf(entries), data, hash)
    ensures Continues(entries, more)
    ensures src.Directory? && Matches(src, more, required, hash) && FoldersFilled(InputsOf(more))
    ensures |InputsOf(more)| + |Parents(InputsOf(more))| == Size(entries) + 6
    ensures var inputs := InputsOf(more);
            && ResolveName(inputs, Parents(inputs), L_KEY) == Ok(Z_KEY)
            && KernelWalk(inputs, [], L_KEY, MAX_ROUNDS - 1) == Ok([HOME, "e", "z"])
  {
    var item := File(hash([]), 0);
    more := WithBoth(entries, item);
    FilledIsHomed(entries);
    BothAdded(entries, required, item);
    BothFollow(entries, item);
    BothPart(InputsOf(more), Parents(InputsOf(more)));
    FoldersStay(entries, more);
    MoreDataMatches(entries, more, data, hash);
    src := FilledSourceExists(more, required, data, hash);
  }

  /**
    * So for every digest there is such a source with all that is required. Its folders are filled and it is
    * within the limit, so `stage` delivers it unless a write fails.
    */
  lemma {:induction false} OneParts(hash: seq<Byte> -> string) returns (entries: seq<Entry>, src: Node)
    requires IsHash(hash([]))
    ensures DistinctKeys(entries) && src.Directory? && Matches(src, entries, Required(), hash)
    ensures FoldersFilled(InputsOf(entries)) && |InputsOf(entries)| + |Parents(InputsOf(entries))| <= MAX_VISITS
    ensures var inputs := InputsOf(entries);
            && ResolveName(inputs, Parents(inputs), L_KEY) == Ok(Z_KEY)
            && KernelWalk(inputs, [], L_KEY, MAX_ROUNDS - 1) == Ok([HOME, "e", "z"])
  {
    var item := File(hash([]), 0);
    FullIsAdmissible(item);
    FullIsFilled(item);
    FullSize(item);
    FullIsFree(item, "z");
    FullIsFree(item, "e");
    FullIsFree(item, "d");
    FullIsFree(item, "l");
    WorkspaceData(item, hash);
    entries, src := CheckedSourceParts(Full(item), Required(), map[], hash);
  }
}
