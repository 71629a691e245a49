/** `current_inputs`: the walk over a source tree whose result must equal the manifest. */
module CurrentInputs {
  import opened Outcome
  import opened RelativePath
  import opened LinkResolution
  import opened StagedTree
  import opened Staging

  const SKIPPED: set<string> := {".git", "__pycache__", ".DS_Store"}

  /** The tree without the names the walk passes over. */
  ghost function Pruned(t: Node): Node {
    match t
    case Directory(entries) => Directory(map k | k in entries && k !in SKIPPED :: Pruned(entries[k]))
    case Regular(_) => t
    case Link(_) => t
    case Special => t
  }

  /** A link the walk admits: a well-formed target that, taken as text, stays inside the root. */
  predicate LinkFits(p: Path, target: string) {
    p != [] && ShapeAllowed(Symlink(target)) && !Escapes(Norm(Parent(p) + Parts(target)))
  }

  /** A leaf the walk admits. */
  predicate LeafFits(p: Path, n: Node) {
    match n
    case Directory(_) => true
    case Regular(data) => |data| <= MAX_FILE
    case Link(target) => LinkFits(p, target)
    case Special => false
  }

  predicate NameFits(p: Path) {
    IsRelativeName(Join(p))
  }

  type NameTest = Path -> bool
  type LeafTest = (Path, Node) -> bool

  /** What the walk refuses: names and leaves that do not fit. */
  function SourceCheck(name: NameTest, leaf: LeafTest): Check {
    (p: Path, shape: Shape) => !name(p) || (shape.Leaf? && !leaf(p, shape.node))
  }

  // The bytes of a listing.

  function BytesOf(item: Item): nat {
    if item.File? then item.bytes else 0
  }

  ghost function BytesIn(m: Inputs): nat
    decreases |m|
  {
    if m == map[] then 0
    else
      var p :| p in m;
      BytesOf(m[p]) + BytesIn(m - {p})
  }

  lemma {:induction false} BytesWithout(m: Inputs, p: Path)
    requires p in m
    ensures BytesIn(m) == BytesOf(m[p]) + BytesIn(m - {p})
    decreases |m|
  {
    var q :| q in m && BytesIn(m) == BytesOf(m[q]) + BytesIn(m - {q});
    if q != p {
      BytesWithout(m - {q}, p);
      BytesWithout(m - {p}, q);
      assert m - {q} - {p} == m - {p} - {q};
    }
  }

  lemma BytesOfOne(p: Path, item: Item)
    ensures BytesIn(map[p := item]) == BytesOf(item)
  {
    var m := map[p := item];
    BytesWithout(m, p);
    assert m - {p} == map[];
  }

  lemma {:induction false} BytesJoined(a: Inputs, b: Inputs)
    requires a.Keys !! b.Keys
    ensures BytesIn(a + b) == BytesIn(a) + BytesIn(b)
    decreases |b|
  {
    if b == map[] {
      assert a + b == a;
    } else {
      var p :| p in b;
      BytesJoined(a, b - {p});
      BytesWithout(b, p);
      BytesWithout(a + b, p);
      UnionWithout(a, b, p);
    }
  }

  lemma UnionWithout(a: Inputs, b: Inputs, p: Path)
    requires p in b && p !in a
    ensures (a + b) - {p} == a + (b - {p})
  {
  }

  // Limits.

  /** The counters and the result dictionary of the walk. */
  datatype Tally = Tally(visits: nat, total: nat, result: Inputs)

  predicate IsFresh(tally: Tally) {
    tally.visits == tally.total == 0 && tally.result == map[]
  }

  predicate Within(tally: Tally) {
    tally.visits <= MAX_VISITS && |tally.result| <= MAX_ENTRIES && tally.total <= MAX_INPUT_BYTES
  }

  /** What a stretch of the walk meets: how many paths, which leaves, their bytes, and whether it refuses one. */
  datatype Content = Content(paths: nat, leaves: Inputs, bytes: nat, bad: bool)

  /** Nothing met. */
  ghost predicate IsNothing(c: Content) {
    c.paths == c.bytes == 0 && c.leaves == map[] && !c.bad
  }

  ghost function Plus(a: Content, b: Content): Content {
    Content(a.paths + b.paths, a.leaves + b.leaves, a.bytes + b.bytes, a.bad || b.bad)
  }

  /** The tally once all of it has been met. */
  ghost function Add(tally: Tally, c: Content): Tally {
    Tally(tally.visits + c.paths, tally.total + c.bytes, tally.result + c.leaves)
  }

  ghost predicate Passes(within: Tally -> bool, tally: Tally, c: Content) {
    !c.bad && within(Add(tally, c))
  }

  /** Nothing refused, and by itself within the limits. */
  ghost predicate Fits(c: Content) {
    !c.bad && c.paths <= MAX_VISITS && |c.leaves| <= MAX_ENTRIES && c.bytes <= MAX_INPUT_BYTES
  }

  /** `within` is the test on the limits. */
  ghost predicate Limits(within: Tally -> bool) {
    forall tally {:trigger Known(within, tally)} :: Known(within, tally)
  }

  ghost predicate Known(within: Tally -> bool, tally: Tally) {
    within(tally) == Within(tally)
  }

  /** The content of a tree, and of one entry of a directory. */
  ghost function ContentOf(refuses: Check, t: Node, prefix: Path, hash: seq<Byte> -> string): Content {
    var leaves := Listing(t, prefix, hash);
    Content(|NodePaths(t)|, leaves, BytesIn(leaves), Refusable(refuses, t, prefix))
  }

  ghost function EntryContent(refuses: Check, t: Node, prefix: Path, k: string, hash: seq<Byte> -> string): Content
    requires t.Directory? && k in t.entries
  {
    var leaves := EntryListing(t, prefix, k, hash);
    Content(1 + |NodePaths(t.entries[k])|, leaves, BytesIn(leaves),
            Refused(refuses, t, prefix, [k]) || Refusable(refuses, t.entries[k], prefix + [k]))
  }

  /** `part` adds up the entries in any order, to `whole`. */
  ghost predicate AddsUp(names: set<string>, part: set<string> -> Content, entry: string -> Content, whole: Content) {
    && (forall none :: none == {} ==> IsNothing(part(none))) && part(names) == whole
    && (forall done, k :: done <= names && k in names - done ==> OneMore(part, entry, done, k))
    && (forall done :: done <= names ==> NoMore(part(done), whole))
  }

  ghost predicate OneMore(part: set<string> -> Content, entry: string -> Content, done: set<string>, k: string) {
    part(done + {k}) == Plus(part(done), entry(k))
  }

  /** Whatever passes with `b` passes with `a`. */
  ghost predicate NoMore(a: Content, b: Content) {
    a.paths <= b.paths && a.bytes <= b.bytes && a.leaves.Keys <= b.leaves.Keys && (a.bad ==> b.bad)
  }

  lemma AddPlus(tally: Tally, a: Content, b: Content)
    ensures Add(Add(tally, a), b) == Add(tally, Plus(a, b))
  {
    MergeAssociates(tally.result, a.leaves, b.leaves);
  }

  lemma AddNothing(tally: Tally, c: Content)
    requires IsNothing(c)
    ensures Add(tally, c) == tally
  {
    assert tally.result + map[] == tally.result;
  }

  lemma LessPasses(within: Tally -> bool, tally: Tally, a: Content, b: Content)
    requires NoMore(a, b) && Limits(within) && Passes(within, tally, b)
    ensures Passes(within, tally, a)
  {
    assert Known(within, Add(tally, a)) && Known(within, Add(tally, b));
    LargerUnion(tally.result, a.leaves, b.leaves);
  }

  /** One turn of a scan: the entry comes on top of the part, and passes if the whole does. */
  lemma TurnAddsUp(within: Tally -> bool, tally: Tally, names: set<string>, part: set<string> -> Content, entry: string -> Content,
                   whole: Content, done: set<string>, k: string)
    requires Limits(within) && AddsUp(names, part, entry, whole) && done <= names && k in names - done && !part(done).bad
    ensures Add(Add(tally, part(done)), entry(k)) == Add(tally, part(done + {k})) && part(done + {k}).bad == entry(k).bad
    ensures Passes(within, tally, whole) ==> Passes(within, Add(tally, part(done)), entry(k))
  {
    assert OneMore(part, entry, done, k);
    AddPlus(tally, part(done), entry(k));
    var more := done + {k};
    assert more <= names;
    if Passes(within, tally, whole) {
      LessPasses(within, tally, part(more), whole);
    }
  }

  // A directory's content adds up.

  /** Listings of a part: disjoint from what is listed next, and no dearer than the whole. */
  lemma ListingApart(t: Node, done: set<string>, k: string, prefix: Path, hash: seq<Byte> -> string)
    requires t.Directory? && k in t.entries && k !in done
    ensures Listing(Part(t, done), prefix, hash).Keys !! EntryListing(t, prefix, k, hash).Keys
  {
    forall p
      ensures !(p in Listing(Part(t, done), prefix, hash) && p in EntryListing(t, prefix, k, hash))
    {
      GrowsAt(t, done, k, prefix, hash, p);
    }
  }

  lemma PartListing(t: Node, names: set<string>, prefix: Path, hash: seq<Byte> -> string) returns (rest: Inputs)
    requires t.Directory?
    ensures rest.Keys !! Listing(Part(t, names), prefix, hash).Keys
    ensures Listing(t, prefix, hash) == Listing(Part(t, names), prefix, hash) + rest
  {
    var part, whole := Listing(Part(t, names), prefix, hash), Listing(t, prefix, hash);
    forall p | p in part
      ensures p in whole && whole[p] == part[p]
    {
      PartListedAt(t, names, prefix, hash, p);
    }
    rest := Remainder(part, whole);
  }

  lemma Remainder(part: Inputs, whole: Inputs) returns (rest: Inputs)
    requires forall p :: p in part ==> p in whole && whole[p] == part[p]
    ensures rest.Keys !! part.Keys && whole == part + rest
  {
    rest := map p | p in whole && p !in part :: whole[p];
  }

  lemma PartListedAt(t: Node, names: set<string>, prefix: Path, hash: seq<Byte> -> string, p: Path)
    requires t.Directory? && p in Listing(Part(t, names), prefix, hash)
    ensures p in Listing(t, prefix, hash) && Listing(t, prefix, hash)[p] == Listing(Part(t, names), prefix, hash)[p]
  {
    InListing(Part(t, names), prefix, p);
    InListing(t, prefix, p);
    assert View(Part(t, names), p[|prefix|..]) == View(t, p[|prefix|..]);
  }

  lemma LargerUnion(a: Inputs, b: Inputs, c: Inputs)
    requires b.Keys <= c.Keys
    ensures |a + b| <= |a + c|
  {
    var x, y := (a + b).Keys, (a + c).Keys;
    assert x == a.Keys + b.Keys && y == a.Keys + c.Keys;
    SubsetSize(x, y);
  }

  lemma PartPaths(t: Node, done: set<string>)
    requires t.Directory?
    ensures NodePaths(Part(t, done)) <= NodePaths(t) && |NodePaths(Part(t, done))| <= |NodePaths(t)|
  {
    forall p | p in NodePaths(Part(t, done))
      ensures p in NodePaths(t)
    {
      NodePathsSeen(Part(t, done), p);
      NodePathsSeen(t, p);
    }
    SubsetSize(NodePaths(Part(t, done)), NodePaths(t));
  }

  lemma PartIsNoMore(refuses: Check, t: Node, prefix: Path, done: set<string>, hash: seq<Byte> -> string)
    requires t.Directory?
    ensures NoMore(ContentOf(refuses, Part(t, done), prefix, hash), ContentOf(refuses, t, prefix, hash))
  {
    PartPaths(t, done);
    var rest := PartListing(t, done, prefix, hash);
    BytesJoined(Listing(Part(t, done), prefix, hash), rest);
    if Refusable(refuses, Part(t, done), prefix) {
      var q :| q in NodePaths(Part(t, done)) && Refused(refuses, Part(t, done), prefix, q);
      NodePathsSeen(Part(t, done), q);
      assert View(Part(t, done), q) == View(t, q);
      assert Refused(refuses, t, prefix, q);
    }
  }

  lemma PartTakesEntry(refuses: Check, t: Node, prefix: Path, done: set<string>, k: string, hash: seq<Byte> -> string)
    requires t.Directory? && k in t.entries && k !in done
    ensures ContentOf(refuses, Part(t, done + {k}), prefix, hash)
            == Plus(ContentOf(refuses, Part(t, done), prefix, hash), EntryContent(refuses, t, prefix, k, hash))
  {
    PathsAdd(refuses, t, prefix, done, k, hash);
    LeavesAdd(refuses, t, prefix, done, k, hash);
    RefusalsAdd(refuses, t, prefix, done, k, hash);
    Sum(ContentOf(refuses, Part(t, done + {k}), prefix, hash), ContentOf(refuses, Part(t, done), prefix, hash),
        EntryContent(refuses, t, prefix, k, hash));
  }

  lemma Sum(more: Content, a: Content, b: Content)
    requires more.paths == a.paths + b.paths && more.leaves == a.leaves + b.leaves && more.bytes == a.bytes + b.bytes
    requires more.bad == (a.bad || b.bad)
    ensures more == Plus(a, b)
  {
  }

  lemma PathsAdd(refuses: Check, t: Node, prefix: Path, done: set<string>, k: string, hash: seq<Byte> -> string)
    requires t.Directory? && k in t.entries && k !in done
    ensures ContentOf(refuses, Part(t, done + {k}), prefix, hash).paths
            == ContentOf(refuses, Part(t, done), prefix, hash).paths + EntryContent(refuses, t, prefix, k, hash).paths
  {
    PartGrows(t, done, k);
  }

  lemma LeavesAdd(refuses: Check, t: Node, prefix: Path, done: set<string>, k: string, hash: seq<Byte> -> string)
    requires t.Directory? && k in t.entries && k !in done
    ensures var more, part, entry := ContentOf(refuses, Part(t, done + {k}), prefix, hash), ContentOf(refuses, Part(t, done), prefix, hash),
                                     EntryContent(refuses, t, prefix, k, hash);
            more.leaves == part.leaves + entry.leaves && more.bytes == part.bytes + entry.bytes
  {
    LeavesGrow(t, prefix, done, k, hash);
  }

  lemma RefusalsAdd(refuses: Check, t: Node, prefix: Path, done: set<string>, k: string, hash: seq<Byte> -> string)
    requires t.Directory? && k in t.entries && k !in done
    ensures ContentOf(refuses, Part(t, done + {k}), prefix, hash).bad
            <==> ContentOf(refuses, Part(t, done), prefix, hash).bad || EntryContent(refuses, t, prefix, k, hash).bad
  {
    RefusalGrows(refuses, t, prefix, done, k, hash);
  }

  lemma LeavesGrow(t: Node, prefix: Path, done: set<string>, k: string, hash: seq<Byte> -> string)
    requires t.Directory? && k in t.entries && k !in done
    ensures var part, entry, more := Listing(Part(t, done), prefix, hash), EntryListing(t, prefix, k, hash),
                                     Listing(Part(t, done + {k}), prefix, hash);
            more == part + entry && BytesIn(more) == BytesIn(part) + BytesIn(entry)
  {
    ListingGrows(t, done, k, prefix, hash);
    ListingApart(t, done, k, prefix, hash);
    BytesJoined(Listing(Part(t, done), prefix, hash), EntryListing(t, prefix, k, hash));
  }

  lemma RefusalGrows(refuses: Check, t: Node, prefix: Path, done: set<string>, k: string, hash: seq<Byte> -> string)
    requires t.Directory? && k in t.entries && k !in done
    ensures Refusable(refuses, Part(t, done + {k}), prefix)
            <==> Refusable(refuses, Part(t, done), prefix)
                 || Refused(refuses, t, prefix, [k]) || Refusable(refuses, t.entries[k], prefix + [k])
  {
    var more := Part(t, done + {k});
    if !Refusable(refuses, Part(t, done), prefix) && !Refused(refuses, t, prefix, [k])
       && !Refusable(refuses, t.entries[k], prefix + [k]) {
      EntryPasses(refuses, t, prefix, done, k, hash);
    } else if Refusable(refuses, Part(t, done), prefix) {
      assert Part(more, done) == Part(t, done);
      PartIsNoMore(refuses, more, prefix, done, hash);
    } else {
      assert View(more, [k]) == View(t, [k]) by { assert [k][1..] == []; }
      EntryStops(refuses, more, prefix, done, k);
    }
  }

  ghost function PartContent(refuses: Check, t: Node, prefix: Path, hash: seq<Byte> -> string): set<string> -> Content
    requires t.Directory?
  {
    names => ContentOf(refuses, Part(t, names), prefix, hash)
  }

  lemma DirectoryAddsUp(refuses: Check, t: Node, prefix: Path, hash: seq<Byte> -> string, entry: string -> Content)
    requires t.Directory? && forall k :: k in t.entries ==> entry(k) == EntryContent(refuses, t, prefix, k, hash)
    ensures AddsUp(t.entries.Keys, PartContent(refuses, t, prefix, hash), entry, ContentOf(refuses, t, prefix, hash))
  {
    var part, names := PartContent(refuses, t, prefix, hash), t.entries.Keys;
    EmptyPart(refuses, t, prefix, hash);
    WholePart(t);
    forall done, k | done <= names && k in names - done
      ensures OneMore(part, entry, done, k)
    {
      PartTakesEntry(refuses, t, prefix, done, k, hash);
    }
    forall done | done <= names
      ensures NoMore(part(done), ContentOf(refuses, t, prefix, hash))
    {
      PartIsNoMore(refuses, t, prefix, done, hash);
    }
  }

  /** What a walk of a directory meets, what one of its entries contributes, and what a leaf is by itself. */
  datatype Account = Account(walk: (Node, Path) -> Content, entry: (Node, Path, string) -> Content, leaf: (Path, Node) -> Content)

  /** An entry is itself and what is below it; the entries that are not passed over add up. */
  ghost predicate Lawful(account: Account, skipped: set<string>, nameFits: NameTest, leafFits: LeafTest, hash: seq<Byte> -> string) {
    && (forall t: Node, prefix: Path, k :: t.Directory? && k in t.entries && k !in skipped ==>
          account.entry(t, prefix, k) == EntryAccount(account, nameFits, leafFits, t.entries[k], prefix + [k]))
    && (forall p, n {:trigger LeafAccounted(account, hash, p, n)} :: LeafAccounted(account, hash, p, n))
    && forall t: Node, prefix: Path {:trigger Accounted(t, prefix, skipped, account, account.walk(t, prefix))} :: t.Directory? ==>
         Accounted(t, prefix, skipped, account, account.walk(t, prefix))
  }

  ghost predicate Accounted(t: Node, prefix: Path, skipped: set<string>, account: Account, whole: Content)
    requires t.Directory?
  {
    exists part, entry ::
      && AddsUp(t.entries.Keys - skipped, part, entry, whole)
      && forall k :: k in t.entries && k !in skipped ==> entry(k) == account.entry(t, prefix, k)
  }

  ghost predicate LeafAccounted(account: Account, hash: seq<Byte> -> string, p: Path, n: Node) {
    !n.Directory? ==> account.leaf(p, n) == LeafContent(hash, p, n)
  }

  ghost function LeafContent(hash: seq<Byte> -> string, p: Path, n: Node): Content
    requires !n.Directory?
  {
    Content(0, map[p := ItemOf(n, hash)], BytesOf(ItemOf(n, hash)), false)
  }

  ghost function BelowAccount(account: Account, leafFits: LeafTest, n: Node, relative: Path): Content {
    if n.Directory? then account.walk(n, relative) else account.leaf(relative, n).(bad := !leafFits(relative, n))
  }

  ghost function EntryAccount(account: Account, nameFits: NameTest, leafFits: LeafTest, n: Node, relative: Path): Content {
    Above(BelowAccount(account, leafFits, n, relative), !nameFits(relative))
  }

  /** One path more, with what is below it. */
  ghost function Above(below: Content, bad: bool): Content {
    Content(1 + below.paths, below.leaves, below.bytes, bad || below.bad)
  }

  ghost function Visited(tally: Tally): Tally {
    tally.(visits := tally.visits + 1)
  }

  /** Counting a path first and then what is below it is counting it all. */
  lemma VisitFirst(within: Tally -> bool, tally: Tally, below: Content, bad: bool)
    requires Limits(within) && within(tally)
    ensures Add(Visited(tally), below) == Add(tally, Above(below, bad))
    ensures within(Visited(tally)) <==> tally.visits < MAX_VISITS
    ensures within(Add(tally, Above(below, bad))) ==> tally.visits < MAX_VISITS
  {
    assert Known(within, tally) && Known(within, Visited(tally)) && Known(within, Add(tally, Above(below, bad)));
  }

  ghost function TreeAccount(nameFits: NameTest, leafFits: LeafTest, hash: seq<Byte> -> string): Account {
    var check := SourceCheck(nameFits, leafFits);
    Account((t, prefix) => ContentOf(check, Pruned(t), prefix, hash),
            (t: Node, prefix, k) =>
              if t.Directory? && k in t.entries && k !in SKIPPED then EntryContent(check, Pruned(t), prefix, k, hash)
              else Content(0, map[], 0, false),
            (p, n: Node) => if n.Directory? then Content(0, map[], 0, false) else LeafContent(hash, p, n))
  }

  lemma TreeAccountIsLawful(nameFits: NameTest, leafFits: LeafTest, hash: seq<Byte> -> string)
    ensures Lawful(TreeAccount(nameFits, leafFits, hash), SKIPPED, nameFits, leafFits, hash)
  {
    var account := TreeAccount(nameFits, leafFits, hash);
    forall t: Node, prefix: Path, k | t.Directory? && k in t.entries && k !in SKIPPED
      ensures account.entry(t, prefix, k) == EntryAccount(account, nameFits, leafFits, t.entries[k], prefix + [k])
    {
      EntryIsAccounted(nameFits, leafFits, hash, Pruned(t), t.entries[k], prefix, k);
    }
    forall t: Node, prefix: Path | t.Directory?
      ensures Accounted(t, prefix, SKIPPED, account, account.walk(t, prefix))
    {
      TreeIsAccounted(nameFits, leafFits, hash, t, prefix);
    }
  }

  lemma TreeIsAccounted(nameFits: NameTest, leafFits: LeafTest, hash: seq<Byte> -> string, t: Node, prefix: Path)
    requires t.Directory?
    ensures var account := TreeAccount(nameFits, leafFits, hash);
            Accounted(t, prefix, SKIPPED, account, account.walk(t, prefix))
  {
    var account, kept, check := TreeAccount(nameFits, leafFits, hash), Pruned(t), SourceCheck(nameFits, leafFits);
    var entry := k => account.entry(t, prefix, k);
    PrunedNames(t);
    DirectoryAddsUp(check, kept, prefix, hash, entry);
    AccountedBy(t, prefix, SKIPPED, account, ContentOf(check, kept, prefix, hash), PartContent(check, kept, prefix, hash), entry);
  }

  lemma AccountedBy(t: Node, prefix: Path, skipped: set<string>, account: Account, whole: Content, part: set<string> -> Content,
                    entry: string -> Content)
    requires t.Directory? && AddsUp(t.entries.Keys - skipped, part, entry, whole)
    requires forall k :: k in t.entries && k !in skipped ==> entry(k) == account.entry(t, prefix, k)
    ensures Accounted(t, prefix, skipped, account, whole)
  {
  }

  lemma PrunedNames(t: Node)
    requires t.Directory?
    ensures Pruned(t).entries.Keys == t.entries.Keys - SKIPPED
  {
  }

  lemma EntryIsAccounted(nameFits: NameTest, leafFits: LeafTest, hash: seq<Byte> -> string, kept: Node, n: Node, prefix: Path, k: string)
    requires kept.Directory? && k in kept.entries && kept.entries[k] == Pruned(n)
    ensures EntryContent(SourceCheck(nameFits, leafFits), kept, prefix, k, hash)
            == EntryAccount(TreeAccount(nameFits, leafFits, hash), nameFits, leafFits, n, prefix + [k])
  {
    assert View(kept, [k]) == Some(ShapeOf(Pruned(n))) by {
      assert [k][1..] == [];
    }
    if !n.Directory? {
      BytesOfOne(prefix + [k], ItemOf(n, hash));
    }
  }

  lemma AccountOf(account: Account, skipped: set<string>, nameFits: NameTest, leafFits: LeafTest, hash: seq<Byte> -> string, t: Node,
                  prefix: Path)
    returns (part: set<string> -> Content, entry: string -> Content)
    requires Lawful(account, skipped, nameFits, leafFits, hash) && t.Directory?
    ensures AddsUp(t.entries.Keys - skipped, part, entry, account.walk(t, prefix))
    ensures forall k :: k in t.entries && k !in skipped ==> entry(k) == account.entry(t, prefix, k)
  {
    assert Accounted(t, prefix, skipped, account, account.walk(t, prefix));
    part, entry :| && AddsUp(t.entries.Keys - skipped, part, entry, account.walk(t, prefix))
                   && forall k :: k in t.entries && k !in skipped ==> entry(k) == account.entry(t, prefix, k);
  }

  /** `done` are the names that are no longer to do. */
  ghost predicate Scanned(names: set<string>, done: set<string>, todo: set<string>) {
    done == names - todo
  }

  lemma OneLess(names: set<string>, done: set<string>, todo: set<string>, name: string)
    requires Scanned(names, done, todo) && name in todo
    ensures Scanned(names, if name in names then done + {name} else done, todo - {name})
    ensures done <= names && name !in done
  {
  }

  lemma AllScanned(names: set<string>, done: set<string>, todo: set<string>)
    requires Scanned(names, done, todo) && todo == {}
    ensures done == names
  {
  }

  datatype SourceFault = BadSourceName | SourceLimit | BadSourceLeaf | BadSourceRoot

  /** The state that the recursive `walk` closure updates. */
  class SourceWalker {
    const skipped: set<string>
    const hash: seq<Byte> -> string
    const nameFits: NameTest
    const leafFits: LeafTest
    ghost const account: Account
    ghost const within: Tally -> bool
    var result: Inputs
    var total: nat
    var visits: nat

    constructor (skipped: set<string>, hash: seq<Byte> -> string, nameFits: NameTest, leafFits: LeafTest, ghost account: Account,
                 ghost within: Tally -> bool)
      ensures this.skipped == skipped && this.hash == hash && this.nameFits == nameFits && this.leafFits == leafFits
      ensures this.account == account && this.within == within
      ensures IsFresh(Counted())
    {
      this.skipped, this.hash, this.nameFits, this.leafFits := skipped, hash, nameFits, leafFits;
      this.account, this.within := account, within;
      result, total, visits := map[], 0, 0;
    }

    function Counted(): Tally
      reads this
    {
      Tally(visits, total, result)
    }

    ghost predicate Valid()
      reads this
    {
      within(Counted()) && Limits(within) && Lawful(account, skipped, nameFits, leafFits, hash)
    }

    /**
      * The scan order is arbitrary. The walk succeeds exactly when it meets nothing it refuses and all it
      * meets stays within the limits; it then has added every leaf it did not pass over.
      */
    method Walk(t: Node, prefix: Path) returns (fault: Option<SourceFault>)
      requires t.Directory? && Valid()
      modifies this`result, this`total, this`visits
      ensures fault.None? <==> Passes(within, old(Counted()), account.walk(t, prefix))
      ensures fault.None? ==> Counted() == Add(old(Counted()), account.walk(t, prefix))
      decreases t, 1
    {
      ghost var names, before, whole := t.entries.Keys - skipped, Counted(), account.walk(t, prefix);
      ghost var part, entry := AccountOf(account, skipped, nameFits, leafFits, hash, t, prefix);
      ghost var done: set<string> := {};
      var todo := t.entries.Keys;
      AddNothing(before, part(done));
      while todo != {}
        invariant todo <= t.entries.Keys && Scanned(names, done, todo) && within(Counted())
        invariant Counted() == Add(before, part(done)) && !part(done).bad
        decreases todo
      {
        var name :| name in todo;
        OneLess(names, done, todo, name);
        if name !in skipped {
          TurnAddsUp(within, before, names, part, entry, whole, done, name);
          fault := Entry(t, prefix, name);
          if fault.Some? {
            return;
          }
          done := done + {name};
        }
        todo := todo - {name};
      }
      AllScanned(names, done, todo);
      fault := None;
    }

    /** One turn of the scan loop. */
    method Entry(t: Node, prefix: Path, name: string) returns (fault: Option<SourceFault>)
      requires t.Directory? && name in t.entries && name !in skipped && Valid()
      modifies this`result, this`total, this`visits
      ensures fault.None? <==> Passes(within, old(Counted()), account.entry(t, prefix, name))
      ensures fault.None? ==> Counted() == Add(old(Counted()), account.entry(t, prefix, name))
      decreases t, 0
    {
      var relative, n := prefix + [name], t.entries[name];
      ghost var before, below := Counted(), BelowAccount(account, leafFits, n, relative);
      assert account.entry(t, prefix, name) == EntryAccount(account, nameFits, leafFits, n, relative);
      VisitFirst(within, before, below, !nameFits(relative));
      if !nameFits(relative) {
        return Some(BadSourceName);
      }
      visits := visits + 1;
      if visits > MAX_VISITS {
        return Some(SourceLimit);
      }
      assert Counted() == Visited(before);
      fault := Below(n, relative);
    }

    /** What follows once a path has been counted: a walk below it, or a leaf to keep. */
    method Below(n: Node, relative: Path) returns (fault: Option<SourceFault>)
      requires Valid()
      modifies this`result, this`total, this`visits
      ensures fault.None? <==> Passes(within, old(Counted()), BelowAccount(account, leafFits, n, relative))
      ensures fault.None? ==> Counted() == Add(old(Counted()), BelowAccount(account, leafFits, n, relative))
      decreases n, 2
    {
      if n.Directory? {
        fault := Walk(n, relative);
        return;
      }
      if !leafFits(relative, n) {
        return Some(BadSourceLeaf);
      }
      fault := Keep(relative, n);
    }

    /** A leaf joins the result, and the limits are looked at again. */
    method Keep(relative: Path, n: Node) returns (fault: Option<SourceFault>)
      requires !n.Directory? && Valid()
      modifies this`result, this`total
      ensures Counted() == Add(old(Counted()), account.leaf(relative, n)) && (fault.None? <==> within(Counted()))
    {
      assert LeafAccounted(account, hash, relative, n) && Known(within, Counted());
      var item := ItemOf(n, hash);
      result := result + map[relative := item];
      total := total + BytesOf(item);
      fault := if |result| > MAX_ENTRIES || total > MAX_INPUT_BYTES then Some(SourceLimit) else None;
      assert Known(within, Counted());
    }
  }

  // The roots.

  /** What the walk can see of a source tree: the root files and the three folders, pruned. */
  ghost function Selected(src: Node): Node
    requires src.Directory?
  {
    SelectedOf(src, ROOT_FILES + ROOT_FOLDERS)
  }

  ghost function SelectedOf(src: Node, names: set<string>): Node
    requires src.Directory?
  {
    Directory(map k | k in src.entries && k in names :: Pruned(src.entries[k]))
  }

  predicate RootsThere(src: Node, files: set<string>, folders: set<string>) {
    && src.Directory?
    && (forall k :: k in files ==> k in src.entries && src.entries[k].Regular?)
    && (forall k :: k in folders ==> k in src.entries && src.entries[k].Directory?)
  }

  /** The same content without the paths of `n` roots, which the walk does not count. */
  ghost function Uncounted(c: Content, n: nat): Content {
    c.(paths := if c.paths < n then 0 else c.paths - n)
  }

  ghost function SourceContent(src: Node, hash: seq<Byte> -> string): Content
    requires src.Directory?
  {
    Uncounted(ContentOf(SourceCheck(NameFits, LeafFits), Selected(src), [], hash), |ROOT_FILES + ROOT_FOLDERS|)
  }

  /** `current_inputs` succeeds on `src`. */
  ghost predicate SourcePasses(src: Node, hash: seq<Byte> -> string) {
    RootsThere(src, ROOT_FILES, ROOT_FOLDERS) && Fits(SourceContent(src, hash))
  }

  ghost function Tops(names: set<string>): set<Path> {
    set k | k in names :: [k]
  }

  lemma {:induction false} TopsSize(names: set<string>)
    ensures |Tops(names)| == |names|
  {
    if names != {} {
      var k :| k in names;
      TopsSize(names - {k});
      assert Tops(names) == Tops(names - {k}) + {[k]};
    }
  }

  lemma TopsOfPart(t: Node, done: set<string>)
    requires t.Directory? && done <= t.entries.Keys
    ensures Tops(done) <= NodePaths(Part(t, done)) && Tops(t.entries.Keys - done) <= NodePaths(t)
    ensures Tops(t.entries.Keys - done) !! NodePaths(Part(t, done))
  {
    forall k | k in t.entries
      ensures [k] in NodePaths(t) && ([k] in NodePaths(Part(t, done)) <==> k in done)
    {
      TopPath(t, k);
      NodePathsSeen(Part(t, done), [k]);
      assert [k][1..] == [];
    }
  }

  /** A part leaves out at least the entries it leaves out. */
  lemma PartPathsRest(t: Node, done: set<string>)
    requires t.Directory? && done <= t.entries.Keys
    ensures |NodePaths(Part(t, done))| + |t.entries.Keys| <= |NodePaths(t)| + |done|
    ensures |done| <= |NodePaths(Part(t, done))|
  {
    TopsOfPart(t, done);
    PartPaths(t, done);
    TopsSize(done);
    TopsSize(t.entries.Keys - done);
    Count(NodePaths(t), NodePaths(Part(t, done)), Tops(t.entries.Keys - done), Tops(done));
    assert t.entries.Keys == done + (t.entries.Keys - done);
  }

  lemma Count(all: set<Path>, part: set<Path>, rest: set<Path>, tops: set<Path>)
    requires part <= all && rest <= all && part !! rest && tops <= part
    ensures |part| + |rest| <= |all| && |tops| <= |part|
  {
    SubsetSize(part + rest, all);
    SubsetSize(tops, part);
  }

  lemma TopPath(t: Node, k: string)
    requires t.Directory? && k in t.entries
    ensures [k] in NodePaths(t)
  {
    NodePathsSeen(t, [k]);
    assert [k][1..] == [];
  }

  /** What the roots in `done` come to, their own paths left out of account. */
  ghost function RootPart(refuses: Check, t: Node, hash: seq<Byte> -> string, done: set<string>): Content
    requires t.Directory?
  {
    Uncounted(ContentOf(refuses, Part(t, done), [], hash), |done|)
  }

  lemma RootAdds(refuses: Check, t: Node, hash: seq<Byte> -> string, done: set<string>, k: string)
    requires t.Directory? && done <= t.entries.Keys && k in t.entries && k !in done
    ensures var entry := Uncounted(EntryContent(refuses, t, [], k, hash), 1);
            RootPart(refuses, t, hash, done + {k}) == Plus(RootPart(refuses, t, hash, done), entry)
  {
    PartTakesEntry(refuses, t, [], done, k, hash);
    PartPathsRest(t, done);
  }

  lemma RootIsNoMore(refuses: Check, t: Node, hash: seq<Byte> -> string, done: set<string>)
    requires t.Directory? && done <= t.entries.Keys
    ensures NoMore(RootPart(refuses, t, hash, done), Uncounted(ContentOf(refuses, t, [], hash), |t.entries.Keys|))
  {
    PartPathsRest(t, done);
    PartIsNoMore(refuses, t, [], done, hash);
  }

  lemma RootEnds(refuses: Check, t: Node, hash: seq<Byte> -> string)
    requires t.Directory?
    ensures IsNothing(RootPart(refuses, t, hash, {}))
    ensures RootPart(refuses, t, hash, t.entries.Keys) == Uncounted(ContentOf(refuses, t, [], hash), |t.entries.Keys|)
  {
    EmptyPart(refuses, t, [], hash);
    WholePart(t);
  }

  ghost function Elements(names: seq<string>): set<string> {
    set i | 0 <= i < |names| :: names[i]
  }

  ghost predicate Distinct(names: seq<string>) {
    forall i, j :: 0 <= i < j < |names| ==> names[i] != names[j]
  }

  /** `part` adds up the roots in their order, to `whole`. */
  ghost predicate RootsAddUp(roots: seq<string>, part: nat -> Content, entry: string -> Content, whole: Content) {
    && (forall i: nat :: i < 1 ==> IsNothing(part(i))) && part(|roots|) == whole
    && forall i: nat :: i < |roots| ==> RootTurn(roots, part, entry, whole, i)
  }

  ghost predicate RootTurn(roots: seq<string>, part: nat -> Content, entry: string -> Content, whole: Content, i: nat)
    requires i < |roots|
  {
    part(i + 1) == Plus(part(i), entry(roots[i])) && NoMore(part(i + 1), whole)
  }

  ghost function RootEntry(refuses: Check, t: Node, hash: seq<Byte> -> string, k: string): Content {
    if t.Directory? && k in t.entries then Uncounted(EntryContent(refuses, t, [], k, hash), 1) else Content(0, map[], 0, false)
  }

  ghost function RootPrefix(refuses: Check, t: Node, hash: seq<Byte> -> string, roots: seq<string>, i: nat): Content {
    if t.Directory? && i <= |roots| then RootPart(refuses, t, hash, Elements(roots[..i])) else Content(0, map[], 0, false)
  }

  lemma RootTaken(refuses: Check, t: Node, hash: seq<Byte> -> string, roots: seq<string>, i: nat)
    requires t.Directory? && Distinct(roots) && Elements(roots) == t.entries.Keys && i < |roots|
    ensures RootPrefix(refuses, t, hash, roots, i + 1)
            == Plus(RootPrefix(refuses, t, hash, roots, i), RootEntry(refuses, t, hash, roots[i]))
    ensures NoMore(RootPrefix(refuses, t, hash, roots, i + 1), Uncounted(ContentOf(refuses, t, [], hash), |t.entries.Keys|))
  {
    var done, k := Elements(roots[..i]), roots[i];
    PrefixGrows(roots, i);
    RootAdds(refuses, t, hash, done, k);
    RootIsNoMore(refuses, t, hash, done + {k});
  }

  lemma PrefixGrows(roots: seq<string>, i: nat)
    requires Distinct(roots) && i < |roots|
    ensures Elements(roots[..i + 1]) == Elements(roots[..i]) + {roots[i]} && roots[i] !in Elements(roots[..i])
    ensures Elements(roots[..i + 1]) <= Elements(roots)
  {
    var more, less := roots[..i + 1], roots[..i];
    assert forall j :: 0 <= j < i ==> more[j] == less[j] == roots[j];
    assert more[i] == roots[i];
  }

  ghost function RootPrefixes(refuses: Check, t: Node, hash: seq<Byte> -> string, roots: seq<string>): nat -> Content {
    (i: nat) => RootPrefix(refuses, t, hash, roots, i)
  }

  ghost function RootEntries(refuses: Check, t: Node, hash: seq<Byte> -> string): string -> Content {
    k => RootEntry(refuses, t, hash, k)
  }

  /** The roots add up. */
  lemma SelectedAddsUp(refuses: Check, t: Node, hash: seq<Byte> -> string, roots: seq<string>)
    requires t.Directory? && Distinct(roots) && Elements(roots) == t.entries.Keys
    ensures RootsAddUp(roots, RootPrefixes(refuses, t, hash, roots), RootEntries(refuses, t, hash),
                       Uncounted(ContentOf(refuses, t, [], hash), |t.entries.Keys|))
  {
    var part, entry := RootPrefixes(refuses, t, hash, roots), RootEntries(refuses, t, hash);
    RootEnds(refuses, t, hash);
    assert Elements(roots[..0]) == {} && roots[..|roots|] == roots;
    forall i: nat | i < |roots|
      ensures RootTurn(roots, part, entry, Uncounted(ContentOf(refuses, t, [], hash), |t.entries.Keys|), i)
    {
      RootTaken(refuses, t, hash, roots, i);
    }
  }

  /** What the root `n` called `k` contributes, once it is known to be of the right kind. */
  ghost function RootAccount(account: Account, n: Node, k: string): Content {
    match n
    case Directory(_) => account.walk(n, [k])
    case Regular(data) => account.leaf([k], n).(bad := |data| > MAX_FILE)
    case Link(_) => Content(0, map[], 0, false)
    case Special => Content(0, map[], 0, false)
  }

  /** The tally of at most `count` files within the file limit. */
  ghost predicate Small(tally: Tally, count: nat) {
    tally.visits == 0 && |tally.result| <= count && tally.total <= 0x100_0000 * count
  }

  lemma SmallFile(tally: Tally, count: nat, c: Content)
    requires Small(tally, count) && c.paths == 0 && |c.leaves| <= 1 && c.bytes <= MAX_FILE
    ensures Small(Add(tally, c), count + 1)
  {
    assert (tally.result + c.leaves).Keys == tally.result.Keys + c.leaves.Keys;
  }

  /** The root files are so few that their own limit keeps them within the others. */
  lemma {:induction false} FilesAreSmall(src: Node, roots: seq<string>, files: nat, account: Account, hash: seq<Byte> -> string,
                                         start: Tally, part: nat -> Content, entry: string -> Content, whole: Content, i: nat)
    requires RootsAddUp(roots, part, entry, whole) && IsFresh(start) && files <= |roots| && i <= files && !part(i).bad
    requires forall j :: 0 <= j < |roots| ==> RootReady(src, roots[j], j < files, account, entry(roots[j]))
    requires forall p, n {:trigger LeafAccounted(account, hash, p, n)} :: LeafAccounted(account, hash, p, n)
    ensures Small(Add(start, part(i)), i)
  {
    if i == 0 {
      AddNothing(start, part(0));
    } else {
      assert RootTurn(roots, part, entry, whole, i - 1) && RootReady(src, roots[i - 1], true, account, entry(roots[i - 1]));
      FilesAreSmall(src, roots, files, account, hash, start, part, entry, whole, i - 1);
      var k := roots[i - 1];
      assert LeafAccounted(account, hash, [k], src.entries[k]);
      SmallFile(Add(start, part(i - 1)), i - 1, entry(k));
      AddPlus(start, part(i - 1), entry(k));
    }
  }

  /** One turn over the roots: what comes on top passes if the whole does. */
  lemma RootAddsUp(within: Tally -> bool, tally: Tally, roots: seq<string>, part: nat -> Content, entry: string -> Content, whole: Content,
                   i: nat)
    requires Limits(within) && RootsAddUp(roots, part, entry, whole) && i < |roots| && !part(i).bad
    ensures Add(Add(tally, part(i)), entry(roots[i])) == Add(tally, part(i + 1)) && part(i + 1).bad == entry(roots[i]).bad
    ensures Passes(within, tally, whole) ==> Passes(within, Add(tally, part(i)), entry(roots[i]))
  {
    assert RootTurn(roots, part, entry, whole, i);
    AddPlus(tally, part(i), entry(roots[i]));
    if Passes(within, tally, whole) {
      LessPasses(within, tally, part(i + 1), whole);
    }
  }

  /** One root, of either kind: `measure` with the file limit, or a walk. */
  method TakeRoot(n: Node, name: string, file: bool, walker: SourceWalker, ghost c: Content) returns (fault: Option<SourceFault>)
    requires walker.Valid() && c == RootAccount(walker.account, n, name)
    requires if file then n.Regular? && (!c.bad ==> walker.within(Add(walker.Counted(), c))) else n.Directory?
    modifies walker`result, walker`total, walker`visits
    ensures fault.None? <==> Passes(walker.within, old(walker.Counted()), c)
    ensures fault.None? ==> walker.Counted() == Add(old(walker.Counted()), c)
  {
    if !file {
      fault := walker.Walk(n, [name]);
      return;
    }
    if |n.data| > MAX_FILE {
      return Some(BadSourceLeaf);
    }
    fault := walker.Keep([name], n);
  }

  /** The root called `k` is there, of the right kind, and accounted for. */
  ghost predicate RootReady(src: Node, k: string, file: bool, account: Account, c: Content) {
    && src.Directory? && k in src.entries && c == RootAccount(account, src.entries[k], k)
    && if file then src.entries[k].Regular? else src.entries[k].Directory?
  }

  /** The loop over the root files and then the folders, for any account of what the roots add up to. */
  method Collect(src: Node, roots: seq<string>, files: nat, walker: SourceWalker, ghost start: Tally, ghost part: nat -> Content,
                 ghost entry: string -> Content, ghost whole: Content)
    returns (fault: Option<SourceFault>)
    requires walker.Valid() && walker.Counted() == start && IsFresh(start) && RootsAddUp(roots, part, entry, whole)
    requires files <= |roots| && forall i: nat :: i <= files && !part(i).bad ==> walker.within(Add(start, part(i)))
    requires forall i :: 0 <= i < |roots| ==> RootReady(src, roots[i], i < files, walker.account, entry(roots[i]))
    modifies walker`result, walker`total, walker`visits
    ensures fault.None? <==> Passes(walker.within, start, whole)
    ensures fault.None? ==> walker.Counted() == Add(start, whole)
  {
    AddNothing(start, part(0));
    for i := 0 to |roots|
      invariant !part(i).bad && walker.Counted() == Add(start, part(i)) && walker.within(walker.Counted())
    {
      RootAddsUp(walker.within, start, roots, part, entry, whole, i);
      assert RootReady(src, roots[i], i < files, walker.account, entry(roots[i]));
      fault := TakeRoot(src.entries[roots[i]], roots[i], i < files, walker, entry(roots[i]));
      if fault.Some? {
        return;
      }
    }
    assert part(|roots|) == whole;
    fault := None;
  }

  /** The root files, then the folders, in the order of the source. */
  const ROOTS: seq<string> := [
    "package.json", "pnpm-lock.yaml", "pnpm-workspace.yaml", "tsconfig.base.json", "tsconfig.typecheck.json",
    "tsconfig.sdk-fence.json", "bunfig.toml", "packages", "scripts", "node_modules"]

  const FILES := 7

  lemma RootsAreListed()
    ensures |ROOTS| == 10 && Elements(ROOTS) == ROOT_FILES + ROOT_FOLDERS && Distinct(ROOTS)
    ensures forall i :: 0 <= i < |ROOTS| ==> if i < FILES then ROOTS[i] in ROOT_FILES else ROOTS[i] in ROOT_FOLDERS
    ensures ROOT_FILES !! ROOT_FOLDERS
  {
    assert ROOTS[0] == "package.json" && ROOTS[1] == "pnpm-lock.yaml" && ROOTS[2] == "pnpm-workspace.yaml";
    assert ROOTS[3] == "tsconfig.base.json" && ROOTS[4] == "tsconfig.typecheck.json" && ROOTS[5] == "tsconfig.sdk-fence.json";
    assert ROOTS[6] == "bunfig.toml" && ROOTS[7] == "packages" && ROOTS[8] == "scripts" && ROOTS[9] == "node_modules";
  }

  /** A short component without separators, NUL or backslash. */
  predicate IsTame(k: string) {
    IsPlain(k) && |k| <= 64 && forall i :: 0 <= i < |k| ==> k[i] != '/' && k[i] != '\0' && k[i] != '\\'
  }

  lemma TameNameFits(k: string)
    requires IsTame(k)
    ensures NameFits([k])
  {
    assert Join([k]) == k;
    PathAcceptedMeans([k]);
  }

  lemma RootFilesAreTame()
    ensures forall k :: k in ROOT_FILES ==> IsTame(k)
  {
    PackageFilesAreTame();
    assert IsTame("tsconfig.base.json") && IsTame("tsconfig.typecheck.json") && IsTame("tsconfig.sdk-fence.json");
  }

  lemma PackageFilesAreTame()
    ensures IsTame("package.json") && IsTame("pnpm-lock.yaml") && IsTame("pnpm-workspace.yaml") && IsTame("bunfig.toml")
  {
  }

  lemma RootFoldersAreTame()
    ensures forall k :: k in ROOT_FOLDERS ==> IsTame(k)
  {
  }

  lemma RootNamesFit()
    ensures forall k :: k in ROOT_FILES + ROOT_FOLDERS ==> NameFits([k])
  {
    RootFilesAreTame();
    RootFoldersAreTame();
    forall k | k in ROOT_FILES + ROOT_FOLDERS
      ensures NameFits([k])
    {
      TameNameFits(k);
    }
  }

  /** A root of the right kind is accounted for as an entry of the selected tree. */
  lemma RootIsReady(src: Node, sel: Node, k: string, nameFits: NameTest, leafFits: LeafTest, hash: seq<Byte> -> string)
    requires src.Directory? && k in src.entries && sel.Directory? && k in sel.entries && sel.entries[k] == Pruned(src.entries[k])
    requires (src.entries[k].Regular? || src.entries[k].Directory?) && nameFits([k])
    requires src.entries[k].Regular? ==> (leafFits([k], src.entries[k]) <==> |src.entries[k].data| <= MAX_FILE)
    ensures RootEntry(SourceCheck(nameFits, leafFits), sel, hash, k)
            == RootAccount(TreeAccount(nameFits, leafFits, hash), src.entries[k], k)
  {
    EntryIsAccounted(nameFits, leafFits, hash, sel, src.entries[k], [], k);
    assert [] + [k] == [k];
  }

  lemma FreshPasses(start: Tally, c: Content)
    requires IsFresh(start)
    ensures Passes(Within, start, c) <==> Fits(c)
    ensures Add(start, c).result == c.leaves
  {
    assert start.result + c.leaves == c.leaves;
  }

  /** The roots are the entries of `sel`, each there in `src`, of its kind and with a name that fits. */
  ghost predicate Rooted(src: Node, sel: Node, roots: seq<string>, files: nat, nameFits: NameTest) {
    && src.Directory? && sel.Directory? && Distinct(roots) && Elements(roots) == sel.entries.Keys && files <= |roots| && files <= 16
    && forall i :: 0 <= i < |roots| ==> RootedAt(src, sel, roots[i], i < files) && nameFits([roots[i]])
  }

  ghost predicate RootedAt(src: Node, sel: Node, k: string, file: bool) {
    && src.Directory? && sel.Directory? && k in src.entries && k in sel.entries && sel.entries[k] == Pruned(src.entries[k])
    && if file then src.entries[k].Regular? else src.entries[k].Directory?
  }

  ghost predicate SizesOnly(leafFits: LeafTest) {
    forall p, n: Node {:trigger leafFits(p, n)} :: n.Regular? ==> (leafFits(p, n) <==> |n.data| <= MAX_FILE)
  }

  lemma RootsReady(src: Node, sel: Node, roots: seq<string>, files: nat, nameFits: NameTest, leafFits: LeafTest, hash: seq<Byte> -> string)
    requires Rooted(src, sel, roots, files, nameFits) && SizesOnly(leafFits)
    ensures var entry, account := RootEntries(SourceCheck(nameFits, leafFits), sel, hash), TreeAccount(nameFits, leafFits, hash);
            forall i :: 0 <= i < |roots| ==> RootReady(src, roots[i], i < files, account, entry(roots[i]))
  {
    forall i | 0 <= i < |roots|
      ensures RootReady(src, roots[i], i < files, TreeAccount(nameFits, leafFits, hash),
                        RootEntry(SourceCheck(nameFits, leafFits), sel, hash, roots[i]))
    {
      assert RootedAt(src, sel, roots[i], i < files);
      RootIsReady(src, sel, roots[i], nameFits, leafFits, hash);
    }
  }

  /** `current_inputs` over any roots: it succeeds exactly when the content of the selected tree fits. */
  method Gather(src: Node, ghost sel: Node, roots: seq<string>, files: nat, nameFits: NameTest, leafFits: LeafTest,
                hash: seq<Byte> -> string)
    returns (r: Result<Inputs, SourceFault>)
    requires Rooted(src, sel, roots, files, nameFits) && SizesOnly(leafFits)
    ensures r.Ok? <==> Fits(Uncounted(ContentOf(SourceCheck(nameFits, leafFits), sel, [], hash), |sel.entries.Keys|))
    ensures r.Ok? ==> r.value == Listing(sel, [], hash)
  {
    ghost var check, account := SourceCheck(nameFits, leafFits), TreeAccount(nameFits, leafFits, hash);
    ghost var whole := Uncounted(ContentOf(check, sel, [], hash), |sel.entries.Keys|);
    TreeAccountIsLawful(nameFits, leafFits, hash);
    SelectedAddsUp(check, sel, hash, roots);
    RootsReady(src, sel, roots, files, nameFits, leafFits, hash);
    r := GatherWith(src, roots, files, nameFits, leafFits, hash, account, RootPrefixes(check, sel, hash, roots),
                    RootEntries(check, sel, hash), whole);
  }

  /** The same for any account. */
  method GatherWith(src: Node, roots: seq<string>, files: nat, nameFits: NameTest, leafFits: LeafTest, hash: seq<Byte> -> string,
                    ghost account: Account, ghost part: nat -> Content, ghost entry: string -> Content, ghost whole: Content)
    returns (r: Result<Inputs, SourceFault>)
    requires Lawful(account, SKIPPED, nameFits, leafFits, hash) && RootsAddUp(roots, part, entry, whole)
    requires files <= |roots| && files <= 16
    requires forall i :: 0 <= i < |roots| ==> RootReady(src, roots[i], i < files, account, entry(roots[i]))
    ensures r.Ok? <==> Fits(whole)
    ensures r.Ok? ==> r.value == whole.leaves
  {
    var walker := new SourceWalker(SKIPPED, hash, nameFits, leafFits, account, Within);
    ghost var start := walker.Counted();
    forall i: nat | i <= files && !part(i).bad
      ensures Within(Add(start, part(i)))
    {
      FilesAreSmall(src, roots, files, account, hash, start, part, entry, whole, i);
    }
    var fault := Collect(src, roots, files, walker, start, part, entry, whole);
    FreshPasses(start, whole);
    return if fault.Some? then Err(fault.value) else Ok(walker.result);
  }

  /** `roots` lists the files and then the folders. */
  ghost predicate AreRoots(roots: seq<string>, files: nat, fileNames: set<string>, folders: set<string>) {
    && Distinct(roots) && Elements(roots) == fileNames + folders && files <= |roots| && files <= 16
    && forall i :: 0 <= i < |roots| ==> if i < files then roots[i] in fileNames else roots[i] in folders
  }

  lemma RootsAreRoots()
    ensures AreRoots(ROOTS, FILES, ROOT_FILES, ROOT_FOLDERS)
  {
    RootsAreListed();
  }

  lemma SelectionIsRooted(src: Node, roots: seq<string>, files: nat, fileNames: set<string>, folders: set<string>, nameFits: NameTest)
    requires RootsThere(src, fileNames, folders) && AreRoots(roots, files, fileNames, folders)
    requires forall k :: k in fileNames + folders ==> nameFits([k])
    ensures Rooted(src, SelectedOf(src, fileNames + folders), roots, files, nameFits)
    ensures SelectedOf(src, fileNames + folders).entries.Keys == fileNames + folders
  {
    var sel := SelectedOf(src, fileNames + folders);
    assert sel.entries.Keys == fileNames + folders;
    forall i | 0 <= i < |roots|
      ensures RootedAt(src, sel, roots[i], i < files) && nameFits([roots[i]])
    {
      assert roots[i] in Elements(roots);
    }
  }

  lemma SelectedIsRooted(src: Node)
    requires RootsThere(src, ROOT_FILES, ROOT_FOLDERS)
    ensures Rooted(src, Selected(src), ROOTS, FILES, NameFits) && Selected(src).entries.Keys == ROOT_FILES + ROOT_FOLDERS
  {
    RootsAreRoots();
    RootNamesFit();
    SelectionIsRooted(src, ROOTS, FILES, ROOT_FILES, ROOT_FOLDERS, NameFits);
  }

  lemma LeafSizes()
    ensures SizesOnly(LeafFits)
  {
  }

  /** `current_inputs` succeeds exactly on the sources that pass, and lists what it can see of them. */
  method Inventory(src: Node, hash: seq<Byte> -> string) returns (r: Result<Inputs, SourceFault>)
    requires src.Directory?
    ensures r.Ok? <==> SourcePasses(src, hash)
    ensures r.Ok? ==> r.value == Listing(Selected(src), [], hash)
  {
    if !RootsThere(src, ROOT_FILES, ROOT_FOLDERS) {
      return Err(BadSourceRoot);
    }
    SelectedIsRooted(src);
    LeafSizes();
    r := Gather(src, Selected(src), ROOTS, FILES, NameFits, LeafFits, hash);
  }
}
