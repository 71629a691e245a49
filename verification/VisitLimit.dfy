/**
  * The walk over a source leaves its ten roots uncounted and the walk over a staged tree does not, while
  * both have the same limit: sources exist that pass the first and whose staged tree fails the second.
  */
module VisitLimit {
  import opened Outcome
  import opened Text
  import opened RelativePath
  import opened LinkResolution
  import opened StagedTree
  import opened Staging
  import opened CurrentInputs
  import opened Snapshot
  import opened SourceTrees
  import opened Workspace

  /** A one-letter name. */
  predicate IsMark(part: string) {
    |part| == 1 && part[0] >= '\U{1000}' && part[0] != '\U{FEFF}'
  }

  function FlatKey(part: string): (key: Key)
    requires IsMark(part)
    ensures |key| == 2 && key[0] == HOME && key[1] == part
  {
    [HOME, part]
  }

  function DeepKey(part: string): (key: Key)
    requires IsMark(part)
    ensures |key| == 5 && key[0] == HOME && key[1] == part && key[2] == "a" && key[3] == "b" && key[4] == "f"
  {
    [HOME, part, "a", "b", "f"]
  }

  lemma NewKeys(part: string)
    requires IsMark(part)
    ensures PathAccepted(FlatKey(part)) && InView(FlatKey(part)) && PathAccepted(DeepKey(part)) && InView(DeepKey(part))
    ensures HOME in ROOT_FOLDERS
  {
    HomeIsTame();
    ShortIsTame(part);
    ShortIsTame("a");
    ShortIsTame("b");
    ShortIsTame("f");
    TamePath(FlatKey(part));
    TamePath(DeepKey(part));
  }

  const MARKS := 16384

  function Mark(i: nat): (part: string)
    requires i < MARKS
    ensures IsMark(part)
  {
    [(0x4E00 + i) as char]
  }

  /** Every mark from `i` on is free. */
  ghost predicate HasRoom(entries: seq<Entry>, i: nat) {
    forall d: nat :: i <= d < MARKS ==> Free(entries, Mark(d))
  }

  /** The `i`-th file to add: the first `deep` of them three directories down, the others flat. */
  function Extra(deep: nat, i: nat, item: Item): (e: Entry)
    requires i < MARKS
    ensures e.item == item && |e.key| == (if i < deep then 5 else 2) && e.key[0] == HOME && e.key[1] == Mark(i)
  {
    Entry(if i < deep then DeepKey(Mark(i)) else FlatKey(Mark(i)), item)
  }

  function Extras(deep: nat, n: nat, item: Item): (es: seq<Entry>)
    requires n <= MARKS
    ensures |es| == n && forall i :: 0 <= i < n ==> es[i] == Extra(deep, i, item)
  {
    seq(n, i requires 0 <= i < n => Extra(deep, i, item))
  }

  lemma RoomLeft(entries: seq<Entry>, e: Entry, i: nat)
    requires HasRoom(entries, i) && i < MARKS && |e.key| > 1 && e.key[1] == Mark(i)
    ensures HasRoom(entries + [e], i + 1)
  {
    forall d: nat | i + 1 <= d < MARKS
      ensures Free(entries + [e], Mark(d))
    {
      assert Free(entries, Mark(d)) && Mark(d)[0] != Mark(i)[0];
    }
  }

  /** A manifest to be grown further, of the given size. */
  ghost predicate Fine(entries: seq<Entry>, required: set<Path>, i: nat, size: nat) {
    && Sourced(entries) && AllFiles(entries) && Admissible(entries, required) && Homed(entries)
    && HasRoom(entries, i) && Size(entries) == size
  }

  lemma ExtraAdded(entries: seq<Entry>, required: set<Path>, item: Item, deep: nat, i: nat, size: nat)
    requires Fine(entries, required, i, size) && IsEmptyFile(item) && i < MARKS && |entries| < MAX_ENTRIES
    ensures Fine(entries + [Extra(deep, i, item)], required, i + 1, size + if i < deep then 4 else 1)
  {
    var e := Extra(deep, i, item);
    NewKeys(Mark(i));
    assert Free(entries, Mark(i));
    FileAdded(entries, required, Mark(i), e);
    RoomLeft(entries, e, i);
  }

  /** If `fine` survives each step, it survives them all. */
  lemma {:induction false} ExtrasKeep(fine: (seq<Entry>, nat, nat) -> bool, entries: seq<Entry>, item: Item, deep: nat, n: nat, size: nat)
    requires fine(entries, 0, size) && n <= MARKS && |entries| + n <= MAX_ENTRIES
    requires forall es, i: nat, k: nat {:trigger Keeps(fine, es, item, deep, i, k)} :: Keeps(fine, es, item, deep, i, k)
    ensures fine(entries + Extras(deep, n, item), n, size + if n <= deep then 4 * n else 3 * deep + n)
    decreases n
  {
    if n == 0 {
      assert entries + Extras(deep, 0, item) == entries;
    } else {
      ExtrasKeep(fine, entries, item, deep, n - 1, size);
      var less := entries + Extras(deep, n - 1, item);
      assert Keeps(fine, less, item, deep, n - 1, size + if n - 1 <= deep then 4 * (n - 1) else 3 * deep + n - 1);
      LastExtra(entries, deep, n, item);
    }
  }

  ghost predicate Keeps(fine: (seq<Entry>, nat, nat) -> bool, es: seq<Entry>, item: Item, deep: nat, i: nat, size: nat) {
    i < MARKS && |es| < MAX_ENTRIES && fine(es, i, size)
    ==> fine(es + [Extra(deep, i, item)], i + 1, size + if i < deep then 4 else 1)
  }

  ghost function FineFor(required: set<Path>): (seq<Entry>, nat, nat) -> bool {
    (es, i: nat, size: nat) => Fine(es, required, i, size)
  }

  lemma ExtraKeepsFine(required: set<Path>, es: seq<Entry>, item: Item, deep: nat, i: nat, size: nat)
    requires IsEmptyFile(item)
    ensures Keeps(FineFor(required), es, item, deep, i, size)
  {
    if i < MARKS && |es| < MAX_ENTRIES && FineFor(required)(es, i, size) {
      ExtraAdded(es, required, item, deep, i, size);
    }
  }

  lemma ExtrasAdded(entries: seq<Entry>, required: set<Path>, item: Item, deep: nat, n: nat, size: nat)
    requires FineFor(required)(entries, 0, size) && IsEmptyFile(item) && n <= MARKS && |entries| + n <= MAX_ENTRIES
    ensures FineFor(required)(entries + Extras(deep, n, item), n, size + if n <= deep then 4 * n else 3 * deep + n)
  {
    forall es, i: nat, k: nat
      ensures Keeps(FineFor(required), es, item, deep, i, k)
    {
      ExtraKeepsFine(required, es, item, deep, i, k);
    }
    ExtrasKeep(FineFor(required), entries, item, deep, n, size);
  }

  lemma LastExtra(entries: seq<Entry>, deep: nat, n: nat, item: Item)
    requires 0 < n <= MARKS
    ensures entries + Extras(deep, n, item) == entries + Extras(deep, n - 1, item) + [Extra(deep, n - 1, item)]
  {
  }

  /** How many files, and how many of them deep, make up `gap` paths. */
  lemma FilesNeeded(gap: nat) returns (deep: nat, n: nat)
    ensures deep <= n && 3 * deep + n == gap && 4 * n <= gap + 12
  {
    deep, n := gap / 4, gap / 4 + gap % 4;
  }

  lemma {:induction false} GrowsBeyond(entries: seq<Entry>, required: set<Path>, item: Item) returns (more: seq<Entry>)
    requires FineFor(required)(entries, 0, Size(entries)) && IsEmptyFile(item) && Size(entries) <= MAX_VISITS && |entries| <= 4000
    ensures |entries| <= |more| && more[..|entries|] == entries && forall i :: |entries| <= i < |more| ==> more[i].item == item
    ensures Sourced(more) && Admissible(more, required) && Size(more) == MAX_VISITS + 5
  {
    var deep, n := FilesNeeded(MAX_VISITS + 5 - Size(entries));
    ExtrasAdded(entries, required, item, deep, n, Size(entries));
    more := entries + Extras(deep, n, item);
    ExtrasFollow(entries, deep, n, item, more);
  }

  lemma ExtrasFollow(entries: seq<Entry>, deep: nat, n: nat, item: Item, more: seq<Entry>)
    requires n <= MARKS && more == entries + Extras(deep, n, item)
    ensures |entries| <= |more| && more[..|entries|] == entries && forall i :: |entries| <= i < |more| ==> more[i].item == item
  {
  }

  /**
    * Every admissible manifest of files with room has an extension whose source passes `check_snapshot`,
    * and whose staged tree `inventory_staged` refuses: names and directories come to five more than it
    * will visit.
    */
  lemma {:induction false} PassesThenRefused(entries: seq<Entry>, required: set<Path>, data: map<Path, seq<Byte>>,
                                             hash: seq<Byte> -> string)
    returns (more: seq<Entry>, src: Node)
    requires Sourced(entries) && AllFiles(entries) && Admissible(entries, required) && HasRoom(entries, 0)
    requires FoldersFilled(InputsOf(entries))
    requires Size(entries) <= MAX_VISITS && |entries| <= 4000
    requires IsHash(hash([])) && data.Keys <= InputsOf(entries).Keys && DataMatches(InputsOf(entries), data, hash)
    ensures Continues(entries, more)
    ensures src.Directory? && Matches(src, more, required, hash) && FoldersFilled(InputsOf(more))
    ensures |InputsOf(more)| + |Parents(InputsOf(more))| == MAX_VISITS + 5
  {
    FilledIsHomed(entries);
    more := GrowsBeyond(entries, required, File(hash([]), 0));
    FoldersStay(entries, more);
    MoreDataMatches(entries, more, data, hash);
    src := FilledSourceExists(more, required, data, hash);
  }

  lemma FullHasRoom(item: Item)
    requires IsEmptyFile(item)
    ensures HasRoom(Full(item), 0)
  {
    forall d: nat | d < MARKS
      ensures Free(Full(item), Mark(d))
    {
      FullIsFree(item, Mark(d));
    }
  }

  /** So for every digest there is a source with all that is required that passes `check_snapshot` and cannot be staged. */
  lemma {:induction false} OneRefused(hash: seq<Byte> -> string) returns (entries: seq<Entry>, src: Node)
    requires IsHash(hash([]))
    ensures DistinctKeys(entries) && src.Directory? && Matches(src, entries, Required(), hash) && FoldersFilled(InputsOf(entries))
    ensures |InputsOf(entries)| + |Parents(InputsOf(entries))| == MAX_VISITS + 5
  {
    var item := File(hash([]), 0);
    FullIsAdmissible(item);
    FullIsFilled(item);
    FullSize(item);
    FullHasRoom(item);
    WorkspaceData(item, hash);
    entries, src := PassesThenRefused(Full(item), Required(), map[], hash);
  }
}
