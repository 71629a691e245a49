/** A source that passes `check_snapshot` with nothing in `node_modules`, which its staged tree then lacks. */
module EmptyFolder {
  import opened Outcome
  import opened RelativePath
  import opened LinkResolution
  import opened StagedTree
  import opened Staging
  import opened CurrentInputs
  import opened Snapshot
  import opened SourceTrees
  import opened Workspace

  /** No folder is a name: the empty one is avoided, and names lie below the other two. */
  lemma FoldersAreNoNames(inputs: Inputs, empty: string)
    requires Parents(inputs) !! inputs.Keys && Avoids(inputs, empty)
    requires forall f :: f in ROOT_FOLDERS && f != empty ==> [f] in Parents(inputs)
    ensures Tops(ROOT_FOLDERS) !! inputs.Keys
  {
    forall f | f in ROOT_FOLDERS
      ensures [f] !in inputs
    {
      FolderIsNoFile(f);
    }
  }

  lemma OthersAreFilled(item: Item)
    requires IsEmptyFile(item)
    ensures forall f :: f in ROOT_FOLDERS && f != MODULES[0] ==> [f] in Parents(InputsOf(Bare(item)))
  {
    BareIsNotFilled(item);
    ThreeFolders();
  }

  lemma BareIsSeparate(item: Item)
    requires IsEmptyFile(item)
    ensures Parents(InputsOf(Bare(item))) !! InputsOf(Bare(item)).Keys
  {
    BareIsAdmissible(item);
  }

  lemma BareFolders(item: Item)
    requires IsEmptyFile(item)
    ensures Tops(ROOT_FOLDERS) !! InputsOf(Bare(item)).Keys
  {
    BareAvoidsModules(item);
    BareIsSeparate(item);
    OthersAreFilled(item);
    FoldersAreNoNames(InputsOf(Bare(item)), MODULES[0]);
  }

  lemma BareFits(item: Item)
    requires IsEmptyFile(item)
    ensures |InputsOf(Bare(item))| + |WithFolders(InputsOf(Bare(item)))| <= 34
  {
    var inputs := InputsOf(Bare(item));
    BareSize(item);
    ThreeFolders();
    TopsSize(ROOT_FOLDERS);
    ThreeAtMost(GUEST[0], HOME, MODULES[0]);
    UnionSize(Parents(inputs), Tops(ROOT_FOLDERS), |Parents(inputs)|, 3);
  }

  lemma ThreeAtMost(a: string, b: string, c: string)
    ensures |{a, b, c}| <= 3
  {
  }

  /**
    * For every digest there is a source with all that is required that passes `check_snapshot`, and its
    * `node_modules` is empty: no name of the manifest lies in it, so the staged tree has no such folder.
    */
  lemma {:induction false} OneEmptyFolder(hash: seq<Byte> -> string) returns (entries: seq<Entry>, src: Node)
    requires IsHash(hash([]))
    ensures DistinctKeys(entries) && src.Directory? && Matches(src, entries, Required(), hash)
    ensures "node_modules" in src.entries && src.entries["node_modules"] == Directory(map[])
    ensures !FoldersFilled(InputsOf(entries)) && |InputsOf(entries)| + |Parents(InputsOf(entries))| <= MAX_VISITS
  {
    var item := File(hash([]), 0);
    entries := Bare(item);
    BareIsAdmissible(item);
    BareFolders(item);
    BareFits(item);
    BareIsNotFilled(item);
    BareSize(item);
    WorkspaceData(item, hash);
    src := SourceExists(entries, Required(), map[], hash);
    ThreeFolders();
  }
}
