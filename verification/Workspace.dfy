/** The smallest manifest that the checks let through: the root files and the required sources, all empty. */
module Workspace {
  import opened Outcome
  import opened RelativePath
  import opened LinkResolution
  import opened StagedTree
  import opened Staging
  import opened CurrentInputs
  import opened Snapshot
  import opened SourceTrees

  // `REQUIRED_SOURCES`, folder by folder.

  const GUEST: Path := ["packages", "runtime", "src", "guest"]

  const GUEST_NAMES: seq<string> := [
    "linux-supervisor.py", "linux-compartment.h", "linux-tool-compartment.c", "linux-runtime-compartment.c", "file-worker.c",
    "process-worker.c", "linux-session-owner.c", "linux-session-admission.ts"]

  const ENGINE: Path := [HOME, "guest-engine"]

  const ENGINE_NAMES: seq<string> := [
    "runtime.ts", "provider.ts", "compile.ts", "verify.py", "build.py", "provenance.py", "stage.py"]

  const SCRIPTS: Path := [HOME]

  const SCRIPT_NAMES: seq<string> := ["build-runtime.ts", "linux-runtime-base.json"]

  /** No source is required in the third folder. */
  const MODULES: Path := ["node_modules"]

  const MODULE_NAMES: seq<string> := ["module"]

  predicate TameDir(dir: Path) {
    1 <= |dir| <= 4 && dir[0] in ROOT_FOLDERS && forall i :: 0 <= i < |dir| ==> IsTame(dir[i]) && (i > 0 ==> dir[i] !in SKIPPED)
  }

  ghost predicate TameNames(names: seq<string>) {
    Distinct(names) && forall i :: 0 <= i < |names| ==> FitName(names[i])
  }

  predicate FitName(name: string) {
    IsTame(name) && name !in SKIPPED
  }

  // Adding the files of one folder.

  function GroupKey(dir: Path, name: string): (key: Key)
    requires TameDir(dir) && IsTame(name)
    ensures key == dir + [name]
  {
    dir + [name]
  }

  function Group(dir: Path, names: seq<string>, item: Item): (es: seq<Entry>)
    requires TameDir(dir) && TameNames(names)
    ensures |es| == |names| && forall i :: 0 <= i < |es| ==> es[i] == Entry(GroupKey(dir, names[i]), item)
  {
    seq(|names|, i requires 0 <= i < |names| => Entry(GroupKey(dir, names[i]), item))
  }

  /** The first `n` paths of the group. */
  ghost predicate InGroup(dir: Path, names: seq<string>, n: nat, p: Path) {
    exists i :: 0 <= i < n && i < |names| && p == dir + [names[i]]
  }

  /** `dir` and the directories above it. */
  ghost function Upto(dir: Path): set<Path> {
    set k | 1 <= k <= |dir| :: dir[..k]
  }

  /** Neither `dir` nor anything above it is a name, and the group's paths are not taken. */
  ghost predicate GroupFree(inputs: Inputs, dir: Path, names: seq<string>) {
    && Upto(dir) !! inputs.Keys
    && forall i :: 0 <= i < |names| ==> dir + [names[i]] !in inputs && dir + [names[i]] !in Parents(inputs)
  }

  ghost predicate Good(entries: seq<Entry>) {
    Sourced(entries) && AllFiles(entries) && Admissible(entries, {})
  }

  /** The inventory with `n` files of a group added. */
  ghost predicate Joined(inputs: Inputs, more: Inputs, dir: Path, names: seq<string>, n: nat) {
    && (forall p :: p in more <==> p in inputs || InGroup(dir, names, n, p))
    && Parents(more) == Parents(inputs) + (if n > 0 then Upto(dir) else {})
  }

  lemma KeyFits(dir: Path, name: string)
    requires TameDir(dir) && IsTame(name) && name !in SKIPPED
    ensures PathAccepted(dir + [name]) && InView(dir + [name]) && PrefixesOf(dir + [name]) == Upto(dir)
  {
    var key := dir + [name];
    TamePath(key);
    assert forall k :: 0 < k < |key| ==> key[..k] == dir[..k];
  }

  lemma NextIsNew(inputs: Inputs, less: Inputs, dir: Path, names: seq<string>, n: nat)
    requires TameDir(dir) && TameNames(names) && n < |names| && GroupFree(inputs, dir, names) && Joined(inputs, less, dir, names, n)
    ensures IsNew(less, dir + [names[n]])
  {
    var key := dir + [names[n]];
    KeyFits(dir, names[n]);
    assert !InGroup(dir, names, n, key) by {
      assert key[|dir|] == names[n];
      assert forall i :: 0 <= i < n ==> (dir + [names[i]])[|dir|] == names[i];
    }
    forall q | q in Upto(dir)
      ensures q != key && q !in less
    {
      assert |q| <= |dir|;
      assert forall i :: 0 <= i < |names| ==> |dir + [names[i]]| == |dir| + 1;
    }
  }

  lemma NextJoins(inputs: Inputs, less: Inputs, dir: Path, names: seq<string>, n: nat, item: Item)
    requires TameDir(dir) && TameNames(names) && n < |names| && Joined(inputs, less, dir, names, n)
    ensures Joined(inputs, less[dir + [names[n]] := item], dir, names, n + 1)
  {
    var key := dir + [names[n]];
    var more := less[key := item];
    KeyFits(dir, names[n]);
    ParentsGrow(less, key, item);
    assert Parents(more) == Parents(inputs) + Upto(dir);
    forall p
      ensures p in more <==> p in inputs || InGroup(dir, names, n + 1, p)
    {
      assert InGroup(dir, names, n + 1, p) <==> InGroup(dir, names, n, p) || p == key;
    }
  }

  /** If `fine` survives each entry of a list, it survives the list. */
  lemma {:induction false} ListKeeps(fine: (seq<Entry>, nat) -> bool, entries: seq<Entry>, list: seq<Entry>, n: nat)
    requires fine(entries, 0) && n <= |list|
    requires forall less, i: nat {:trigger KeepsAt(fine, list, less, i)} :: KeepsAt(fine, list, less, i)
    ensures fine(entries + list[..n], n)
    decreases n
  {
    if n == 0 {
      assert entries + list[..0] == entries;
    } else {
      ListKeeps(fine, entries, list, n - 1);
      assert KeepsAt(fine, list, entries + list[..n - 1], n - 1);
      assert entries + list[..n] == entries + list[..n - 1] + [list[n - 1]];
    }
  }

  lemma AllKeep(fine: (seq<Entry>, nat) -> bool, entries: seq<Entry>, list: seq<Entry>)
    requires fine(entries, 0) && forall less, i: nat {:trigger KeepsAt(fine, list, less, i)} :: KeepsAt(fine, list, less, i)
    ensures fine(entries + list, |list|)
  {
    ListKeeps(fine, entries, list, |list|);
    assert list[..|list|] == list;
  }

  ghost predicate KeepsAt(fine: (seq<Entry>, nat) -> bool, list: seq<Entry>, less: seq<Entry>, i: nat) {
    i < |list| && fine(less, i) ==> fine(less + [list[i]], i + 1)
  }

  /** What holds while a group is being added. */
  ghost predicate Growing(entries: seq<Entry>, dir: Path, names: seq<string>, less: seq<Entry>, n: nat) {
    Good(less) && Joined(InputsOf(entries), InputsOf(less), dir, names, n) && |less| == |entries| + n
  }

  ghost function GrowingFrom(entries: seq<Entry>, dir: Path, names: seq<string>): (seq<Entry>, nat) -> bool {
    (less, n: nat) => Growing(entries, dir, names, less, n)
  }

  lemma GroupStep(entries: seq<Entry>, dir: Path, names: seq<string>, item: Item, less: seq<Entry>, n: nat)
    requires TameDir(dir) && TameNames(names) && GroupFree(InputsOf(entries), dir, names)
    requires IsEmptyFile(item) && |entries| + |names| <= MAX_ENTRIES
    ensures KeepsAt(GrowingFrom(entries, dir, names), Group(dir, names, item), less, n)
  {
    if n < |names| && GrowingFrom(entries, dir, names)(less, n) {
      GrowingStep(entries, dir, names, item, less, n);
    }
  }

  lemma GrowingStep(entries: seq<Entry>, dir: Path, names: seq<string>, item: Item, less: seq<Entry>, n: nat)
    requires TameDir(dir) && TameNames(names) && GroupFree(InputsOf(entries), dir, names)
    requires IsEmptyFile(item) && |entries| + |names| <= MAX_ENTRIES && n < |names| && Growing(entries, dir, names, less, n)
    ensures Growing(entries, dir, names, less + [Entry(GroupKey(dir, names[n]), item)], n + 1)
  {
    NextIsNew(InputsOf(entries), InputsOf(less), dir, names, n);
    GoodStep(less, dir, names[n], item);
    NextJoins(InputsOf(entries), InputsOf(less), dir, names, n, item);
  }

  lemma GoodStep(less: seq<Entry>, dir: Path, name: string, item: Item)
    requires Good(less) && |less| < MAX_ENTRIES && IsEmptyFile(item)
    requires TameDir(dir) && IsTame(name) && name !in SKIPPED && IsNew(InputsOf(less), dir + [name])
    ensures var more := less + [Entry(GroupKey(dir, name), item)];
            Good(more) && InputsOf(more) == InputsOf(less)[dir + [name] := item]
  {
    var e := Entry(GroupKey(dir, name), item);
    KeyFits(dir, name);
    PlainAdded(less, {}, e);
    InputsGrow(less, e, less + [e]);
  }

  lemma GroupKeeps(entries: seq<Entry>, dir: Path, names: seq<string>, item: Item)
    requires TameDir(dir) && TameNames(names) && GroupFree(InputsOf(entries), dir, names)
    requires IsEmptyFile(item) && |entries| + |names| <= MAX_ENTRIES
    ensures forall less, i: nat {:trigger KeepsAt(GrowingFrom(entries, dir, names), Group(dir, names, item), less, i)} ::
              KeepsAt(GrowingFrom(entries, dir, names), Group(dir, names, item), less, i)
  {
    forall less, i: nat
      ensures KeepsAt(GrowingFrom(entries, dir, names), Group(dir, names, item), less, i)
    {
      GroupStep(entries, dir, names, item, less, i);
    }
  }

  lemma GroupAdded(entries: seq<Entry>, dir: Path, names: seq<string>, item: Item)
    requires Good(entries) && TameDir(dir) && TameNames(names) && GroupFree(InputsOf(entries), dir, names)
    requires IsEmptyFile(item) && |entries| + |names| <= MAX_ENTRIES
    ensures GrowingFrom(entries, dir, names)(entries + Group(dir, names, item), |names|)
  {
    GroupKeeps(entries, dir, names, item);
    NothingJoins(entries, dir, names);
    AllKeep(GrowingFrom(entries, dir, names), entries, Group(dir, names, item));
  }

  lemma NothingJoins(entries: seq<Entry>, dir: Path, names: seq<string>)
    requires Good(entries)
    ensures GrowingFrom(entries, dir, names)(entries, 0)
  {
    JoinedNothing(InputsOf(entries), dir, names);
  }

  lemma JoinedNothing(inputs: Inputs, dir: Path, names: seq<string>)
    ensures Joined(inputs, inputs, dir, names, 0)
  {
  }

  // The root files.

  function RootEntry(i: nat, item: Item): (e: Entry)
    requires i < FILES
    ensures e.key == [ROOTS[i]] && e.item == item
  {
    RootIsPlain(i);
    Entry([ROOTS[i]], item)
  }

  lemma RootIsPlain(i: nat)
    requires i < |ROOTS|
    ensures IsTame(ROOTS[i])
  {
    RootsAreListed();
    RootFilesAreTame();
    RootFoldersAreTame();
  }

  function RootEntries(item: Item): (es: seq<Entry>)
    ensures |es| == FILES && forall i :: 0 <= i < |es| ==> es[i] == RootEntry(i, item)
  {
    seq(FILES, i requires 0 <= i < FILES => RootEntry(i, item))
  }

  lemma RootEntryFits(i: nat, item: Item)
    requires i < FILES && IsEmptyFile(item)
    ensures Objection(RootEntry(i, item)).None? && InView(RootEntry(i, item).key) && ROOTS[i] in ROOT_FILES
  {
    RootsAreListed();
    RootIsPlain(i);
    TameNameFits(ROOTS[i]);
    assert Join([ROOTS[i]]) == ROOTS[i];
    assert [ROOTS[i]][1..] == [];
  }

  lemma RootNames(item: Item, p: Path)
    ensures p in InputsOf(RootEntries(item)) <==> |p| == 1 && p[0] in ROOT_FILES
    ensures p !in Parents(InputsOf(RootEntries(item)))
  {
    var es := RootEntries(item);
    InputsHave(es);
    forall q | q in InputsOf(es)
      ensures |q| == 1 && q[0] in ROOT_FILES
    {
      var i :| 0 <= i < |es| && es[i].key == q;
      RootIsFile(i);
    }
    if |p| == 1 && p[0] in ROOT_FILES {
      var i := FileIsRoot(p[0]);
      assert es[i].key == [ROOTS[i]] && p == [p[0]];
    }
  }

  lemma RootIsFile(i: nat)
    requires i < FILES
    ensures i < |ROOTS| && ROOTS[i] in ROOT_FILES
  {
    RootsAreListed();
  }

  lemma FileIsRoot(k: string) returns (i: nat)
    requires k in ROOT_FILES
    ensures i < FILES && ROOTS[i] == k
  {
    RootsAreListed();
    assert k in Elements(ROOTS);
    i :| 0 <= i < |ROOTS| && ROOTS[i] == k;
  }

  lemma RootsDiffer(item: Item)
    ensures DistinctKeys(RootEntries(item))
  {
    RootsAreListed();
    forall i, j | 0 <= i < j < FILES
      ensures RootEntry(i, item).key != RootEntry(j, item).key
    {
      assert RootEntry(i, item).key[0] != RootEntry(j, item).key[0];
    }
  }

  lemma RootsUnobjectionable(item: Item, objection: Entry -> Option<Refusal>)
    requires IsEmptyFile(item) && objection == Objection
    ensures Unobjectionable(RootEntries(item), objection) && forall i :: 0 <= i < FILES ==> InView(RootEntries(item)[i].key)
  {
    forall i | 0 <= i < FILES
      ensures objection(RootEntries(item)[i]).None? && InView(RootEntries(item)[i].key)
    {
      RootEntryFits(i, item);
    }
  }

  lemma RootsAreFiles(item: Item, k: string)
    requires item.File? && k in ROOT_FILES
    ensures [k] in InputsOf(RootEntries(item)) && InputsOf(RootEntries(item))[[k]].File?
  {
    RootNames(item, [k]);
    ItemsSatisfy(RootEntries(item), (x: Item) => x.File?);
  }

  lemma RootsAreSourced(item: Item)
    requires IsEmptyFile(item)
    ensures Sourced(RootEntries(item)) && AllFiles(RootEntries(item))
  {
    RootsDiffer(item);
    RootsUnobjectionable(item, Objection);
    forall k | k in ROOT_FILES
      ensures [k] in InputsOf(RootEntries(item)) && InputsOf(RootEntries(item))[[k]].File?
    {
      RootsAreFiles(item, k);
    }
  }

  lemma RootsHaveNoParents(item: Item)
    ensures Parents(InputsOf(RootEntries(item))) == {}
  {
    forall p
      ensures p !in Parents(InputsOf(RootEntries(item)))
    {
      RootNames(item, p);
    }
  }

  lemma RootsAreGood(item: Item)
    requires IsEmptyFile(item)
    ensures Good(RootEntries(item))
  {
    RootsAreSourced(item);
    RootsHaveNoParents(item);
    RootsUnobjectionable(item, Objection);
    EmptyBytes(RootEntries(item));
    FilesAllowed(RootEntries(item));
  }

  // Which paths are there.

  /** Apart from root files, nothing lies at or below `top`. */
  ghost predicate Avoids(inputs: Inputs, top: string) {
    && (forall p :: p in inputs ==> p != [] && ((|p| == 1 && p[0] in ROOT_FILES) || p[0] != top))
    && forall q :: q in Parents(inputs) ==> q != [] && q[0] != top
  }

  lemma RootsAvoid(item: Item, top: string)
    ensures Avoids(InputsOf(RootEntries(item)), top)
  {
    forall p | p in InputsOf(RootEntries(item)) || p in Parents(InputsOf(RootEntries(item)))
      ensures |p| == 1 && p[0] in ROOT_FILES && p !in Parents(InputsOf(RootEntries(item)))
    {
      RootNames(item, p);
    }
  }

  lemma StillAvoids(inputs: Inputs, more: Inputs, dir: Path, names: seq<string>, n: nat, top: string)
    requires Avoids(inputs, top) && Joined(inputs, more, dir, names, n) && dir != [] && dir[0] != top
    ensures Avoids(more, top)
  {
    forall p | p in more
      ensures p != [] && ((|p| == 1 && p[0] in ROOT_FILES) || p[0] != top)
    {
      if p !in inputs {
        var i :| 0 <= i < n && i < |names| && p == dir + [names[i]];
        assert p[0] == dir[0];
      }
    }
  }

  /** A folder nothing lies in yet is free for a group. */
  lemma AvoidedIsFree(inputs: Inputs, dir: Path, names: seq<string>)
    requires TameDir(dir) && Avoids(inputs, dir[0])
    ensures GroupFree(inputs, dir, names)
  {
    RootsAreListed();
    forall q | q in Upto(dir)
      ensures q !in inputs
    {
      var k :| 1 <= k <= |dir| && q == dir[..k];
      assert q[0] == dir[0];
    }
    forall i | 0 <= i < |names|
      ensures dir + [names[i]] !in inputs && dir + [names[i]] !in Parents(inputs)
    {
      assert (dir + [names[i]])[0] == dir[0];
    }
  }

  // The workspace.

  lemma FoldersAreTame()
    ensures TameDir(GUEST) && TameDir(ENGINE) && TameDir(SCRIPTS) && TameDir(MODULES)
    ensures GUEST[0] != HOME && GUEST[0] != MODULES[0] && HOME != MODULES[0]
  {
    GuestIsTame();
    EngineIsTame();
    ModulesAreTame();
    assert GUEST[0][0] == 'p' && HOME[0] == 's' && MODULES[0][0] == 'n';
  }

  lemma GuestIsTame()
    ensures TameDir(GUEST)
  {
  }

  lemma EngineIsTame()
    ensures TameDir(ENGINE) && TameDir(SCRIPTS)
  {
  }

  lemma ModulesAreTame()
    ensures TameDir(MODULES)
  {
  }

  lemma GuestNamesDiffer()
    ensures Distinct(GUEST_NAMES)
  {
    assert |GUEST_NAMES[0]| == 19 && |GUEST_NAMES[1]| == 19 && |GUEST_NAMES[2]| == 24 && |GUEST_NAMES[3]| == 27;
    assert |GUEST_NAMES[4]| == 13 && |GUEST_NAMES[5]| == 16 && |GUEST_NAMES[6]| == 21 && |GUEST_NAMES[7]| == 26;
    assert GUEST_NAMES[0][6] == 's' && GUEST_NAMES[1][6] == 'c';
  }

  lemma GuestNamesAreTame()
    ensures TameNames(GUEST_NAMES)
  {
    GuestNamesDiffer();
    SupervisorNamesFit();
    WorkerNamesFit();
    SessionNamesFit();
  }

  lemma SupervisorNamesFit()
    ensures FitName(GUEST_NAMES[0]) && FitName(GUEST_NAMES[1]) && FitName(GUEST_NAMES[2])
  {
  }

  lemma WorkerNamesFit()
    ensures FitName(GUEST_NAMES[3]) && FitName(GUEST_NAMES[4]) && FitName(GUEST_NAMES[5])
  {
  }

  lemma SessionNamesFit()
    ensures FitName(GUEST_NAMES[6]) && FitName(GUEST_NAMES[7])
  {
  }

  lemma EngineNamesDiffer()
    ensures Distinct(ENGINE_NAMES)
  {
    assert ENGINE_NAMES[0][0] == 'r' && ENGINE_NAMES[1][0] == 'p' && ENGINE_NAMES[2][0] == 'c' && ENGINE_NAMES[3][0] == 'v';
    assert ENGINE_NAMES[4][0] == 'b' && ENGINE_NAMES[5][0] == 'p' && ENGINE_NAMES[6][0] == 's';
    assert |ENGINE_NAMES[1]| == 11 && |ENGINE_NAMES[5]| == 13;
  }

  lemma EngineNamesAreTame()
    ensures TameNames(ENGINE_NAMES)
  {
    EngineNamesDiffer();
    CompiledNamesFit();
    PythonNamesFit();
  }

  lemma CompiledNamesFit()
    ensures FitName(ENGINE_NAMES[0]) && FitName(ENGINE_NAMES[1]) && FitName(ENGINE_NAMES[2])
  {
  }

  lemma PythonNamesFit()
    ensures FitName(ENGINE_NAMES[3]) && FitName(ENGINE_NAMES[4]) && FitName(ENGINE_NAMES[5]) && FitName(ENGINE_NAMES[6])
  {
  }

  lemma ScriptNamesAreTame()
    ensures TameNames(SCRIPT_NAMES) && TameNames(MODULE_NAMES)
  {
    assert SCRIPT_NAMES[0][0] == 'b' && SCRIPT_NAMES[1][0] == 'l';
    ScriptNamesFit();
    ModuleNamesFit();
  }

  lemma ScriptNamesFit()
    ensures FitName(SCRIPT_NAMES[0]) && FitName(SCRIPT_NAMES[1])
  {
  }

  lemma ModuleNamesFit()
    ensures FitName(MODULE_NAMES[0])
  {
  }

  function WithGuests(item: Item): seq<Entry> {
    FoldersAreTame();
    GuestNamesAreTame();
    RootEntries(item) + Group(GUEST, GUEST_NAMES, item)
  }

  function WithEngine(item: Item): seq<Entry> {
    FoldersAreTame();
    EngineNamesAreTame();
    WithGuests(item) + Group(ENGINE, ENGINE_NAMES, item)
  }

  /** All that is required, and nothing in the third folder. */
  function Bare(item: Item): seq<Entry> {
    FoldersAreTame();
    ScriptNamesAreTame();
    WithEngine(item) + Group(SCRIPTS, SCRIPT_NAMES, item)
  }

  /** The same with a file in the third folder. */
  function Full(item: Item): seq<Entry> {
    FoldersAreTame();
    ScriptNamesAreTame();
    Bare(item) + Group(MODULES, MODULE_NAMES, item)
  }

  /** One folder after another joins. */
  lemma StageJoins(entries: seq<Entry>, dir: Path, names: seq<string>, item: Item)
    requires Good(entries) && TameDir(dir) && TameNames(names) && GroupFree(InputsOf(entries), dir, names)
    requires IsEmptyFile(item) && |entries| + |names| <= 100
    ensures var more := entries + Group(dir, names, item);
            Good(more) && Joined(InputsOf(entries), InputsOf(more), dir, names, |names|) && |more| == |entries| + |names|
  {
    GroupAdded(entries, dir, names, item);
  }

  lemma GuestsJoin(item: Item)
    requires IsEmptyFile(item)
    ensures Good(WithGuests(item)) && |WithGuests(item)| == 15
    ensures Joined(InputsOf(RootEntries(item)), InputsOf(WithGuests(item)), GUEST, GUEST_NAMES, 8)
  {
    FoldersAreTame();
    GuestNamesAreTame();
    RootsAreGood(item);
    RootsAvoid(item, GUEST[0]);
    AvoidedIsFree(InputsOf(RootEntries(item)), GUEST, GUEST_NAMES);
    StageJoins(RootEntries(item), GUEST, GUEST_NAMES, item);
  }

  lemma GuestsAvoid(item: Item, top: string)
    requires IsEmptyFile(item) && top != GUEST[0]
    ensures Avoids(InputsOf(WithGuests(item)), top)
  {
    GuestsJoin(item);
    RootsAvoid(item, top);
    StillAvoids(InputsOf(RootEntries(item)), InputsOf(WithGuests(item)), GUEST, GUEST_NAMES, 8, top);
  }

  lemma EngineJoins(item: Item)
    requires IsEmptyFile(item)
    ensures Good(WithEngine(item)) && |WithEngine(item)| == 22
    ensures Joined(InputsOf(WithGuests(item)), InputsOf(WithEngine(item)), ENGINE, ENGINE_NAMES, 7)
  {
    FoldersAreTame();
    EngineNamesAreTame();
    GuestsJoin(item);
    GuestsAvoid(item, HOME);
    AvoidedIsFree(InputsOf(WithGuests(item)), ENGINE, ENGINE_NAMES);
    StageJoins(WithGuests(item), ENGINE, ENGINE_NAMES, item);
  }

  /** Beside one folder, files may still join the folder above it. */
  lemma AboveIsFree(inputs: Inputs, more: Inputs, dir: Path, names: seq<string>, n: nat, beside: seq<string>)
    requires TameDir(dir) && |dir| == 2 && Avoids(inputs, dir[0]) && Joined(inputs, more, dir, names, n)
    requires forall i :: 0 <= i < |beside| ==> beside[i] != dir[1]
    ensures GroupFree(more, [dir[0]], beside)
  {
    FolderIsNoFile(dir[0]);
    forall p | p != [] && p[0] == dir[0] && |p| <= 2
      ensures p !in more && (|p| == 2 && p[1] != dir[1] ==> p !in Parents(more))
    {
      assert !InGroup(dir, names, n, p);
      assert |p| == 2 && p[1] != dir[1] ==> p !in Upto(dir);
    }
    BesidePaths(dir[0], beside);
  }

  lemma BesidePaths(top: string, beside: seq<string>)
    ensures forall i :: 0 <= i < |beside| ==>
              |[top] + [beside[i]]| == 2 && ([top] + [beside[i]])[0] == top && ([top] + [beside[i]])[1] == beside[i]
    ensures forall q :: q in Upto([top]) ==> q == [top]
  {
  }

  lemma FolderIsNoFile(f: string)
    requires f in ROOT_FOLDERS
    ensures f !in ROOT_FILES
  {
    RootsAreListed();
  }

  lemma ScriptsJoin(item: Item)
    requires IsEmptyFile(item)
    ensures Good(Bare(item)) && |Bare(item)| == 24
    ensures Joined(InputsOf(WithEngine(item)), InputsOf(Bare(item)), SCRIPTS, SCRIPT_NAMES, 2)
  {
    FoldersAreTame();
    ScriptNamesAreTame();
    EngineJoins(item);
    GuestsAvoid(item, HOME);
    ScriptsAreBeside();
    AboveIsFree(InputsOf(WithGuests(item)), InputsOf(WithEngine(item)), ENGINE, ENGINE_NAMES, 7, SCRIPT_NAMES);
    StageJoins(WithEngine(item), SCRIPTS, SCRIPT_NAMES, item);
  }

  lemma ScriptsAreBeside()
    ensures forall i :: 0 <= i < |SCRIPT_NAMES| ==> SCRIPT_NAMES[i] != ENGINE[1]
  {
    assert ENGINE[1][0] == 'g' && SCRIPT_NAMES[0][0] == 'b' && SCRIPT_NAMES[1][0] == 'l';
  }

  lemma BareAvoidsModules(item: Item)
    requires IsEmptyFile(item)
    ensures Avoids(InputsOf(Bare(item)), MODULES[0])
  {
    FoldersAreTame();
    GuestsAvoid(item, MODULES[0]);
    EngineJoins(item);
    StillAvoids(InputsOf(WithGuests(item)), InputsOf(WithEngine(item)), ENGINE, ENGINE_NAMES, 7, MODULES[0]);
    ScriptsJoin(item);
    StillAvoids(InputsOf(WithEngine(item)), InputsOf(Bare(item)), SCRIPTS, SCRIPT_NAMES, 2, MODULES[0]);
  }

  lemma ModulesJoin(item: Item)
    requires IsEmptyFile(item)
    ensures Good(Full(item)) && |Full(item)| == 25
    ensures Joined(InputsOf(Bare(item)), InputsOf(Full(item)), MODULES, MODULE_NAMES, 1)
  {
    FoldersAreTame();
    ScriptNamesAreTame();
    ScriptsJoin(item);
    BareAvoidsModules(item);
    AvoidedIsFree(InputsOf(Bare(item)), MODULES, MODULE_NAMES);
    StageJoins(Bare(item), MODULES, MODULE_NAMES, item);
  }

  // What the workspace has.

  ghost function GroupPaths(dir: Path, names: seq<string>): set<Path> {
    set i | 0 <= i < |names| :: dir + [names[i]]
  }

  /** `ROOT_FILES` and `REQUIRED_SOURCES`, as paths. */
  ghost function Required(): set<Path> {
    Tops(ROOT_FILES) + GroupPaths(GUEST, GUEST_NAMES) + GroupPaths(ENGINE, ENGINE_NAMES) + GroupPaths(SCRIPTS, SCRIPT_NAMES)
  }

  lemma JoinedHas(inputs: Inputs, more: Inputs, dir: Path, names: seq<string>)
    requires Joined(inputs, more, dir, names, |names|)
    ensures inputs.Keys <= more.Keys && GroupPaths(dir, names) <= more.Keys
  {
    forall p | p in GroupPaths(dir, names)
      ensures p in more
    {
      assert InGroup(dir, names, |names|, p);
    }
  }

  lemma BareHasRequired(item: Item)
    requires IsEmptyFile(item)
    ensures Required() <= InputsOf(Bare(item)).Keys
  {
    GuestsJoin(item);
    EngineJoins(item);
    ScriptsJoin(item);
    JoinedHas(InputsOf(RootEntries(item)), InputsOf(WithGuests(item)), GUEST, GUEST_NAMES);
    JoinedHas(InputsOf(WithGuests(item)), InputsOf(WithEngine(item)), ENGINE, ENGINE_NAMES);
    JoinedHas(InputsOf(WithEngine(item)), InputsOf(Bare(item)), SCRIPTS, SCRIPT_NAMES);
    forall p | p in Tops(ROOT_FILES)
      ensures p in InputsOf(RootEntries(item))
    {
      RootNames(item, p);
    }
  }

  lemma FullHasRequired(item: Item)
    requires IsEmptyFile(item)
    ensures Required() <= InputsOf(Full(item)).Keys
  {
    BareHasRequired(item);
    ModulesJoin(item);
    JoinedHas(InputsOf(Bare(item)), InputsOf(Full(item)), MODULES, MODULE_NAMES);
  }

  lemma BareParents(item: Item)
    requires IsEmptyFile(item)
    ensures Parents(InputsOf(Bare(item))) == Upto(GUEST) + Upto(ENGINE) + Upto(SCRIPTS)
  {
    RootsHaveNoParents(item);
    GuestsJoin(item);
    EngineJoins(item);
    ScriptsJoin(item);
  }

  lemma FullParents(item: Item)
    requires IsEmptyFile(item)
    ensures Parents(InputsOf(Full(item))) == Upto(GUEST) + Upto(ENGINE) + Upto(SCRIPTS) + Upto(MODULES)
  {
    BareParents(item);
    ModulesJoin(item);
  }

  lemma TopIsUpto(dir: Path)
    requires dir != []
    ensures [dir[0]] in Upto(dir)
  {
    assert dir[..1] == [dir[0]];
  }

  lemma ThreeFolders()
    ensures ROOT_FOLDERS == {GUEST[0], HOME, MODULES[0]}
  {
  }

  /** With a file in the third folder all folders are filled, without it that one is not. */
  lemma FullIsFilled(item: Item)
    requires IsEmptyFile(item)
    ensures FoldersFilled(InputsOf(Full(item))) && Homed(Full(item))
  {
    FullParents(item);
    ThreeFolders();
    TopIsUpto(GUEST);
    TopIsUpto(ENGINE);
    TopIsUpto(MODULES);
  }

  lemma BareIsNotFilled(item: Item)
    requires IsEmptyFile(item)
    ensures [MODULES[0]] !in Parents(InputsOf(Bare(item))) && !FoldersFilled(InputsOf(Bare(item)))
    ensures [GUEST[0]] in Parents(InputsOf(Bare(item))) && [HOME] in Parents(InputsOf(Bare(item)))
  {
    BareParents(item);
    BareAvoidsModules(item);
    ThreeFolders();
    TopIsUpto(GUEST);
    TopIsUpto(ENGINE);
  }

  lemma {:induction false} UptoSize(dir: Path)
    ensures |Upto(dir)| <= |dir|
  {
    if dir != [] {
      var up := dir[..|dir| - 1];
      UptoSize(up);
      assert forall k :: 1 <= k <= |up| ==> up[..k] == dir[..k];
      assert Upto(dir) == Upto(up) + {dir} by {
        assert dir[..|dir|] == dir;
      }
    }
  }

  lemma UnionSize(a: set<Path>, b: set<Path>, m: nat, n: nat)
    requires |a| <= m && |b| <= n
    ensures |a + b| <= m + n
  {
    assert a + b == a + (b - a);
    SubsetSize(b - a, b);
  }

  lemma BareSize(item: Item)
    requires IsEmptyFile(item)
    ensures Size(Bare(item)) <= 31
  {
    BareParents(item);
    ScriptsJoin(item);
    KeyCount(Bare(item));
    UptoSize(GUEST);
    UptoSize(ENGINE);
    UptoSize(SCRIPTS);
    UnionSize(Upto(GUEST), Upto(ENGINE), 4, 2);
    UnionSize(Upto(GUEST) + Upto(ENGINE), Upto(SCRIPTS), 6, 1);
  }

  lemma FullSize(item: Item)
    requires IsEmptyFile(item)
    ensures Size(Full(item)) <= 33
  {
    FullParents(item);
    ModulesJoin(item);
    KeyCount(Full(item));
    UptoSize(GUEST);
    UptoSize(ENGINE);
    UptoSize(SCRIPTS);
    UptoSize(MODULES);
    UnionSize(Upto(GUEST), Upto(ENGINE), 4, 2);
    UnionSize(Upto(GUEST) + Upto(ENGINE), Upto(SCRIPTS), 6, 1);
    UnionSize(Upto(GUEST) + Upto(ENGINE) + Upto(SCRIPTS), Upto(MODULES), 7, 1);
  }

  /** No name directly below `scripts` is one letter long. */
  ghost predicate LongNames(inputs: Inputs) {
    forall p :: p in inputs && |p| > 1 && p[0] == HOME ==> |p[1]| > 1
  }

  lemma LongNamesJoin(inputs: Inputs, more: Inputs, dir: Path, names: seq<string>, n: nat)
    requires LongNames(inputs) && Joined(inputs, more, dir, names, n) && dir != []
    requires dir[0] == HOME ==> if |dir| > 1 then |dir[1]| > 1 else forall i :: 0 <= i < |names| ==> |names[i]| > 1
    ensures LongNames(more)
  {
    forall p | p in more && |p| > 1 && p[0] == HOME
      ensures |p[1]| > 1
    {
      if p !in inputs {
        var i :| 0 <= i < n && i < |names| && p == dir + [names[i]];
        assert p[0] == dir[0] && p[1] == if |dir| > 1 then dir[1] else names[i];
      }
    }
  }

  lemma LettersOfNames()
    ensures GUEST[0] != HOME && MODULES[0] != HOME && |ENGINE[1]| > 1 && forall i :: 0 <= i < |SCRIPT_NAMES| ==> |SCRIPT_NAMES[i]| > 1
  {
    assert GUEST[0][0] == 'p' && MODULES[0][0] == 'n' && HOME[0] == 's';
  }

  lemma GuestsHaveLongNames(item: Item)
    requires IsEmptyFile(item)
    ensures LongNames(InputsOf(WithGuests(item)))
  {
    LettersOfNames();
    forall p | p in InputsOf(RootEntries(item))
      ensures |p| == 1
    {
      RootNames(item, p);
    }
    GuestsJoin(item);
    LongNamesJoin(InputsOf(RootEntries(item)), InputsOf(WithGuests(item)), GUEST, GUEST_NAMES, 8);
  }

  lemma EngineHasLongNames(item: Item)
    requires IsEmptyFile(item)
    ensures LongNames(InputsOf(WithEngine(item)))
  {
    LettersOfNames();
    GuestsHaveLongNames(item);
    EngineJoins(item);
    LongNamesJoin(InputsOf(WithGuests(item)), InputsOf(WithEngine(item)), ENGINE, ENGINE_NAMES, 7);
  }

  lemma BareHasLongNames(item: Item)
    requires IsEmptyFile(item)
    ensures LongNames(InputsOf(Bare(item)))
  {
    LettersOfNames();
    EngineHasLongNames(item);
    ScriptsJoin(item);
    LongNamesJoin(InputsOf(WithEngine(item)), InputsOf(Bare(item)), SCRIPTS, SCRIPT_NAMES, 2);
  }

  lemma FullHasLongNames(item: Item)
    requires IsEmptyFile(item)
    ensures LongNames(InputsOf(Full(item)))
  {
    LettersOfNames();
    BareHasLongNames(item);
    ModulesJoin(item);
    LongNamesJoin(InputsOf(Bare(item)), InputsOf(Full(item)), MODULES, MODULE_NAMES, 1);
  }

  lemma FullIsFree(item: Item, part: string)
    requires IsEmptyFile(item) && |part| == 1
    ensures Free(Full(item), part)
  {
    var es := Full(item);
    FullHasLongNames(item);
    InputsHave(es);
    forall i | 0 <= i < |es|
      ensures FreeOf(es[i].key, part)
    {
      assert es[i].key in InputsOf(es);
    }
  }

  lemma RequiringMore(entries: seq<Entry>, required: set<Path>)
    requires Admissible(entries, {}) && required <= InputsOf(entries).Keys
    ensures Admissible(entries, required)
  {
  }

  lemma FullIsAdmissible(item: Item)
    requires IsEmptyFile(item)
    ensures Sourced(Full(item)) && AllFiles(Full(item)) && Admissible(Full(item), Required())
  {
    ModulesJoin(item);
    FullHasRequired(item);
    RequiringMore(Full(item), Required());
  }

  lemma BareIsAdmissible(item: Item)
    requires IsEmptyFile(item)
    ensures Sourced(Bare(item)) && AllFiles(Bare(item)) && Admissible(Bare(item), Required())
  {
    ScriptsJoin(item);
    BareHasRequired(item);
    RequiringMore(Bare(item), Required());
  }

  /** Empty files all have the digest of nothing. */
  lemma EmptyData(entries: seq<Entry>, item: Item, hash: seq<Byte> -> string)
    requires item == File(hash([]), 0) && forall i :: 0 <= i < |entries| ==> entries[i].item == item
    ensures DataMatches(InputsOf(entries), map[], hash)
  {
    ItemsSatisfy(entries, x => x == item);
  }

  lemma WorkspaceData(item: Item, hash: seq<Byte> -> string)
    requires item == File(hash([]), 0)
    ensures DataMatches(InputsOf(Bare(item)), map[], hash) && DataMatches(InputsOf(Full(item)), map[], hash)
  {
    EmptyData(Bare(item), item, hash);
    EmptyData(Full(item), item, hash);
  }
}
