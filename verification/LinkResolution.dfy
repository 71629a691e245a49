/** `resolve_link`: follows the staged symlinks of an inventory by rewriting path text. */
module LinkResolution {
  import opened Outcome
  import opened RelativePath

  /** One inventory entry; a file carries its digest and size, a symlink its raw target. */
  datatype Item = File(sha256: string, bytes: nat) | Symlink(target: string)

  type Inputs = map<Path, Item>

  datatype LinkError = LinkCycle | LinkEscape | OutsideClosure | LinkDepth

  const MAX_ROUNDS := 40

  predicate IsLink(inputs: Inputs, p: Path) {
    p in inputs && inputs[p].Symlink?
  }

  ghost predicate LinkFree(inputs: Inputs, p: Path) {
    forall k :: 0 <= k <= |p| ==> !IsLink(inputs, p[..k])
  }

  ghost function Links(inputs: Inputs): set<Path> {
    set p | p in inputs && inputs[p].Symlink?
  }

  /** The length of the shortest link prefix that is at least `count` long. */
  function FirstLink(inputs: Inputs, p: Path, count: nat): (r: Option<nat>)
    requires count <= |p| + 1
    ensures r.None? ==> forall k :: count <= k <= |p| ==> !IsLink(inputs, p[..k])
    ensures r.Some? ==> count <= r.value <= |p| && IsLink(inputs, p[..r.value])
                        && forall k :: count <= k < r.value ==> !IsLink(inputs, p[..k])
    decreases |p| + 1 - count
  {
    if count > |p| then None
    else if IsLink(inputs, p[..count]) then Some(count)
    else FirstLink(inputs, p, count + 1)
  }

  /** The rewritten path once the link at `prefix` is replaced by its target. */
  function Expand(prefix: Path, target: string, rest: Path): Path
    requires prefix != []
  {
    Norm(prefix[..|prefix| - 1] + Parts(target) + rest)
  }

  /** One rewriting step: nothing left to follow, a link replaced, or a link whose target leaves the root. */
  datatype Hop = Settled | Go(link: Path, next: Path) | Leave(link: Path)

  function NextHop(inputs: Inputs, p: Path): Hop {
    match FirstLink(inputs, p, 1)
    case None => Settled
    case Some(count) =>
      var link := p[..count];
      var next := Expand(link, inputs[link].target, p[count..]);
      if IsAbsolute(inputs[link].target) || Escapes(next) then Leave(link) else Go(link, next)
  }

  function Hopper(inputs: Inputs): Path -> Hop {
    p => NextHop(inputs, p)
  }

  /** The rounds of `resolve_link` over any rewriting step. */
  function Resolve(hop: Path -> Hop, closure: set<Path>, p: Path, seen: set<Path>, rounds: nat): Result<Path, LinkError>
    decreases rounds
  {
    if rounds == 0 then Err(LinkDepth)
    else match hop(p)
      case Settled => if p in closure then Ok(p) else Err(OutsideClosure)
      case Leave(link) => if link in seen then Err(LinkCycle) else Err(LinkEscape)
      case Go(link, next) =>
        if link in seen then Err(LinkCycle) else Resolve(hop, closure, next, seen + {link}, rounds - 1)
  }

  /** `resolve_link(name, inputs, directories)`. */
  function ResolveName(inputs: Inputs, directories: set<Path>, name: Path): Result<Path, LinkError> {
    Resolve(Hopper(inputs), inputs.Keys + directories, name, {}, MAX_ROUNDS)
  }

  /** The inner loop of `resolve_link`: the length of the first prefix that is a link, or one more than there is. */
  method ScanPrefixes(inputs: Inputs, target: Path) returns (count: nat)
    ensures 1 <= count <= |target| + 1
    ensures FirstLink(inputs, target, 1) == if count <= |target| then Some(count) else None
  {
    count := 1;
    while count <= |target| && !IsLink(inputs, target[..count])
      invariant 1 <= count <= |target| + 1
      invariant FirstLink(inputs, target, 1) == FirstLink(inputs, target, count)
    {
      count := count + 1;
    }
  }

  /** The rounds of `resolve_link`. */
  method ResolveLink(name: Path, inputs: Inputs, directories: set<Path>) returns (r: Result<Path, LinkError>)
    ensures r == ResolveName(inputs, directories, name)
  {
    ghost var hop, closure := Hopper(inputs), inputs.Keys + directories;
    var target, seen := name, {};
    for round := 0 to MAX_ROUNDS
      invariant Resolve(hop, closure, name, {}, MAX_ROUNDS) == Resolve(hop, closure, target, seen, MAX_ROUNDS - round)
    {
      var count := ScanPrefixes(inputs, target);
      if count > |target| {
        return if target in inputs || target in directories then Ok(target) else Err(OutsideClosure);
      }
      var prefix := target[..count];
      if prefix in seen {
        return Err(LinkCycle);
      }
      seen := seen + {prefix};
      var next := Expand(prefix, inputs[prefix].target, target[count..]);
      if IsAbsolute(inputs[prefix].target) || Escapes(next) {
        return Err(LinkEscape);
      }
      target := next;
    }
    return Err(LinkDepth);
  }

  lemma {:induction false} ResolvedIsSettled(hop: Path -> Hop, closure: set<Path>, p: Path, seen: set<Path>, rounds: nat)
    ensures var r := Resolve(hop, closure, p, seen, rounds);
            r.Ok? ==> hop(r.value).Settled? && r.value in closure
    decreases rounds
  {
    if rounds > 0 && hop(p).Go? && hop(p).link !in seen {
      ResolvedIsSettled(hop, closure, hop(p).next, seen + {hop(p).link}, rounds - 1);
    }
  }

  /** A returned path has no link among its prefixes, itself included, and lies in the closure. */
  lemma {:induction false} ResolvedIsFinal(inputs: Inputs, directories: set<Path>, name: Path)
    requires [] !in inputs
    ensures var r := ResolveName(inputs, directories, name);
            r.Ok? ==> LinkFree(inputs, r.value) && (r.value in inputs || r.value in directories)
  {
    ResolvedIsSettled(Hopper(inputs), inputs.Keys + directories, name, {}, MAX_ROUNDS);
    var r := ResolveName(inputs, directories, name);
    if r.Ok? {
      assert FirstLink(inputs, r.value, 1) == None;
      forall k | 0 <= k <= |r.value|
        ensures !IsLink(inputs, r.value[..k])
      {
        assert k == 0 ==> r.value[..k] == [];
      }
    }
  }

  /** The links that a resolution replaces, in order. */
  ghost function Expansions(hop: Path -> Hop, p: Path, seen: set<Path>, rounds: nat): seq<Path>
    decreases rounds
  {
    if rounds == 0 then []
    else match hop(p)
      case Settled => []
      case Leave(link) => if link in seen then [] else [link]
      case Go(link, next) => if link in seen then [] else [link] + Expansions(hop, next, seen + {link}, rounds - 1)
  }

  ghost predicate HopsAlong(hop: Path -> Hop, links: set<Path>) {
    forall p :: !hop(p).Settled? ==> hop(p).link in links
  }

  lemma HopperFollowsLinks(inputs: Inputs)
    ensures HopsAlong(Hopper(inputs), Links(inputs))
  {
  }

  ghost predicate OnceEach(es: seq<Path>, available: set<Path>) {
    && (forall i :: 0 <= i < |es| ==> es[i] in available)
    && (forall i, j :: 0 <= i < j < |es| ==> es[i] != es[j])
    && |es| <= |available|
  }

  lemma OneMoreOnce(es: seq<Path>, available: set<Path>, p: Path)
    requires p in available && OnceEach(es, available - {p})
    ensures OnceEach([p] + es, available)
  {
  }

  /** No link is expanded twice, whatever the round limit; so there are at most as many expansions as links. */
  lemma {:induction false} ExpandedOnce(hop: Path -> Hop, links: set<Path>, p: Path, seen: set<Path>, rounds: nat)
    requires HopsAlong(hop, links)
    ensures OnceEach(Expansions(hop, p, seen, rounds), links - seen)
    decreases rounds
  {
    if rounds == 0 || hop(p).Settled? || hop(p).link in seen {
      return;
    }
    var link := hop(p).link;
    if hop(p).Leave? {
      OneMoreOnce([], links - seen, link);
      assert [link] + [] == [link];
    } else {
      ExpandedOnce(hop, links, hop(p).next, seen + {link}, rounds - 1);
      assert links - (seen + {link}) == links - seen - {link};
      OneMoreOnce(Expansions(hop, hop(p).next, seen + {link}, rounds - 1), links - seen, link);
    }
  }

  /** The round limit only matters to inventories with that many links: above it the result is fixed. */
  lemma {:induction false} LimitIrrelevant(hop: Path -> Hop, links: set<Path>, closure: set<Path>, p: Path, seen: set<Path>, r1: nat,
                                           r2: nat)
    requires HopsAlong(hop, links) && |links - seen| < r1 && |links - seen| < r2
    ensures Resolve(hop, closure, p, seen, r1) == Resolve(hop, closure, p, seen, r2) != Err(LinkDepth)
    decreases r1
  {
    if hop(p).Go? && hop(p).link !in seen {
      var link := hop(p).link;
      assert links - seen == links - (seen + {link}) + {link};
      LimitIrrelevant(hop, links, closure, hop(p).next, seen + {link}, r1 - 1, r2 - 1);
    }
  }

  /** For `resolve_link`: each link once, and with fewer links than rounds the limit never decides. */
  lemma ResolverIsBounded(inputs: Inputs, directories: set<Path>, name: Path, rounds: nat)
    ensures OnceEach(Expansions(Hopper(inputs), name, {}, rounds), Links(inputs))
    ensures |Links(inputs)| < MAX_ROUNDS <= rounds ==>
              (ResolveName(inputs, directories, name) == Resolve(Hopper(inputs), inputs.Keys + directories, name, {}, rounds)
               != Err(LinkDepth))
  {
    var hop, links := Hopper(inputs), Links(inputs);
    HopperFollowsLinks(inputs);
    assert links - {} == links;
    ExpandedOnce(hop, links, name, {}, rounds);
    if |links| < MAX_ROUNDS <= rounds {
      LimitIrrelevant(hop, links, inputs.Keys + directories, name, {}, MAX_ROUNDS, rounds);
    }
  }

  // The reference: a walk of the tree one component at a time, as the kernel resolves a path.

  datatype WalkError = Loop | AboveRoot

  /**
    * `at` is the directory reached so far, `rest` what is left to walk. A link's target is walked
    * from the directory that holds the link; `..` leaves the directory actually reached. At most
    * `budget` links are followed, and none of those in `spent`.
    */
  ghost function Walk(inputs: Inputs, at: Path, rest: seq<string>, spent: set<Path>, budget: nat): Result<Path, WalkError>
    decreases budget, |rest|
  {
    if rest == [] then Ok(at)
    else if rest[0] == ".." then
      if at == [] then Err(AboveRoot) else Walk(inputs, at[..|at| - 1], rest[1..], spent, budget)
    else
      var here := at + [rest[0]];
      if !IsLink(inputs, here) then Walk(inputs, here, rest[1..], spent, budget)
      else if here in spent || budget == 0 then Err(Loop)
      else Walk(inputs, at, Parts(inputs[here].target) + rest[1..], spent + {here}, budget - 1)
  }

  /** The same walk with only the budget to stop it: a link may be followed again. */
  ghost function KernelWalk(inputs: Inputs, at: Path, rest: seq<string>, budget: nat): Result<Path, WalkError>
    decreases budget, |rest|
  {
    if rest == [] then Ok(at)
    else if rest[0] == ".." then
      if at == [] then Err(AboveRoot) else KernelWalk(inputs, at[..|at| - 1], rest[1..], budget)
    else
      var here := at + [rest[0]];
      if !IsLink(inputs, here) then KernelWalk(inputs, here, rest[1..], budget)
      else if budget == 0 then Err(Loop)
      else KernelWalk(inputs, at, Parts(inputs[here].target) + rest[1..], budget - 1)
  }

  lemma {:induction false} WalkIsKernelWalk(inputs: Inputs, at: Path, rest: seq<string>, spent: set<Path>, budget: nat)
    requires Walk(inputs, at, rest, spent, budget).Ok?
    ensures KernelWalk(inputs, at, rest, budget) == Walk(inputs, at, rest, spent, budget)
    decreases budget, |rest|
  {
    if rest != [] {
      var here := at + [rest[0]];
      if rest[0] == ".." {
        WalkIsKernelWalk(inputs, at[..|at| - 1], rest[1..], spent, budget);
      } else if !IsLink(inputs, here) {
        WalkIsKernelWalk(inputs, here, rest[1..], spent, budget);
      } else {
        WalkIsKernelWalk(inputs, at, Parts(inputs[here].target) + rest[1..], spent + {here}, budget - 1);
      }
    }
  }

  /** Components as `PurePosixPath` keeps them. */
  ghost predicate AllKept(parts: seq<string>) {
    forall i :: 0 <= i < |parts| ==> parts[i] != "" && parts[i] != "."
  }

  /** Wherever `rest` turns back with `..`, the place reached so far, as text from `at`, has no link among its prefixes. */
  ghost predicate TurnsClear(inputs: Inputs, at: Path, rest: seq<string>) {
    forall i :: 0 <= i < |rest| && rest[i] == ".." ==> Unlinked(inputs, Norm(at + rest[..i]))
  }

  ghost predicate Unlinked(inputs: Inputs, p: Path) {
    forall k :: 1 <= k <= |p| ==> !IsLink(inputs, p[..k])
  }

  /** Every target is relative and never turns back over a link. */
  ghost predicate ClearTargets(inputs: Inputs) {
    forall p :: IsLink(inputs, p) ==>
      !IsAbsolute(inputs[p].target) && (p != [] ==> TurnsClear(inputs, p[..|p| - 1], Parts(inputs[p].target)))
  }

  /** A link-free stretch of plain names is walked by moving along it. */
  lemma {:induction false} WalkAlong(inputs: Inputs, p: Path, n: nat, spent: set<Path>, budget: nat)
    requires AllPlain(p) && n <= |p|
    requires forall k :: 1 <= k <= n ==> !IsLink(inputs, p[..k])
    ensures Walk(inputs, [], p, spent, budget) == Walk(inputs, p[..n], p[n..], spent, budget)
  {
    if n == 0 {
      assert p[..0] == [] && p[0..] == p;
    } else {
      WalkAlong(inputs, p, n - 1, spent, budget);
      assert p[..n - 1] + [p[n - 1]] == p[..n];
      assert p[n - 1..][1..] == p[n..];
    }
  }

  /** No prefix of `at`, itself included, is a link. */
  ghost predicate Clear(inputs: Inputs, at: Path) {
    AllPlain(at) && forall k :: 1 <= k <= |at| ==> !IsLink(inputs, at[..k])
  }

  lemma WalkNames(inputs: Inputs, at: Path, rest: seq<string>, spent: set<Path>, budget: nat)
    requires Clear(inputs, at) && AllPlain(rest)
    ensures !Escapes(Norm(at + rest))
    ensures Walk(inputs, at, rest, spent, budget) == Walk(inputs, [], Norm(at + rest), spent, budget)
  {
    var all := at + rest;
    NormPlain(all);
    assert forall k :: 1 <= k <= |at| ==> all[..k] == at[..k];
    WalkAlong(inputs, all, |at|, spent, budget);
    assert all[..|at|] == at && all[|at|..] == rest;
  }

  lemma ClearParent(inputs: Inputs, at: Path)
    requires Clear(inputs, at) && at != []
    ensures Clear(inputs, at[..|at| - 1])
  {
    var up := at[..|at| - 1];
    assert forall k :: 1 <= k <= |up| ==> up[..k] == at[..k];
  }

  /** Walking from a link-free directory without turning back over a link is walking the normal form from the root. */
  lemma {:induction false} WalkNormal(inputs: Inputs, at: Path, rest: seq<string>, spent: set<Path>, budget: nat)
    requires Clear(inputs, at) && AllKept(rest) && TurnsClear(inputs, at, rest)
    ensures Walk(inputs, at, rest, spent, budget)
            == if Escapes(Norm(at + rest)) then Err(AboveRoot) else Walk(inputs, [], Norm(at + rest), spent, budget)
    decreases |rest|, 1
  {
    if forall i :: 0 <= i < |rest| ==> rest[i] != ".." {
      WalkNames(inputs, at, rest, spent, budget);
    } else if rest[0] == ".." {
      WalkBack(inputs, at, rest, spent, budget);
    } else {
      WalkOn(inputs, at, rest, spent, budget);
    }
  }

  lemma {:induction false} WalkOn(inputs: Inputs, at: Path, rest: seq<string>, spent: set<Path>, budget: nat)
    requires Clear(inputs, at) && AllKept(rest) && TurnsClear(inputs, at, rest)
    requires rest != [] && rest[0] != ".." && exists i :: 0 <= i < |rest| && rest[i] == ".."
    ensures Walk(inputs, at, rest, spent, budget)
            == if Escapes(Norm(at + rest)) then Err(AboveRoot) else Walk(inputs, [], Norm(at + rest), spent, budget)
    decreases |rest|, 0
  {
    var here, tail := at + [rest[0]], rest[1..];
    StepIsClear(inputs, at, rest);
    WalkStep(inputs, at, rest, spent, budget);
    WalkNormal(inputs, here, tail, spent, budget);
  }

  lemma StepIsClear(inputs: Inputs, at: Path, rest: seq<string>)
    requires Clear(inputs, at) && AllKept(rest) && TurnsClear(inputs, at, rest)
    requires rest != [] && rest[0] != ".." && exists i :: 0 <= i < |rest| && rest[i] == ".."
    ensures var here, tail := at + [rest[0]], rest[1..];
            Clear(inputs, here) && AllKept(tail) && TurnsClear(inputs, here, tail) && here + tail == at + rest
  {
    var here, tail := at + [rest[0]], rest[1..];
    assert here + tail == at + rest;
    NextIsClear(inputs, at, rest);
    TurnsOn(inputs, at, rest);
    assert forall i :: 0 <= i < |tail| ==> tail[i] == rest[i + 1];
  }

  lemma WalkStep(inputs: Inputs, at: Path, rest: seq<string>, spent: set<Path>, budget: nat)
    requires rest != [] && rest[0] != ".." && Clear(inputs, at + [rest[0]])
    ensures Walk(inputs, at, rest, spent, budget) == Walk(inputs, at + [rest[0]], rest[1..], spent, budget)
  {
    var here := at + [rest[0]];
    assert here[..|here|] == here;
  }

  lemma {:induction false} WalkBack(inputs: Inputs, at: Path, rest: seq<string>, spent: set<Path>, budget: nat)
    requires Clear(inputs, at) && AllKept(rest) && TurnsClear(inputs, at, rest) && rest != [] && rest[0] == ".."
    ensures Walk(inputs, at, rest, spent, budget)
            == if Escapes(Norm(at + rest)) then Err(AboveRoot) else Walk(inputs, [], Norm(at + rest), spent, budget)
    decreases |rest|, 0
  {
    var tail := rest[1..];
    assert rest == [".."] + tail;
    if at == [] {
      NormEscapes(tail);
      assert at + rest == rest;
    } else {
      NormUp(at, tail);
      ClearParent(inputs, at);
      TurnsBack(inputs, at, rest);
      WalkNormal(inputs, at[..|at| - 1], tail, spent, budget);
    }
  }

  /** A name before a later `..` is no link, and neither is anything before it. */
  lemma NextIsClear(inputs: Inputs, at: Path, rest: seq<string>)
    requires Clear(inputs, at) && AllKept(rest) && TurnsClear(inputs, at, rest)
    requires rest != [] && rest[0] != ".." && exists i :: 0 <= i < |rest| && rest[i] == ".."
    ensures Clear(inputs, at + [rest[0]])
  {
    var i := FirstUp(rest);
    var there, here := at + rest[..i], at + [rest[0]];
    NormPlain(there);
    assert Unlinked(inputs, there);
    assert forall k :: 1 <= k <= |here| ==> here[..k] == there[..k];
  }

  lemma {:induction false} FirstUp(rest: seq<string>) returns (i: nat)
    requires exists i :: 0 <= i < |rest| && rest[i] == ".."
    ensures i < |rest| && rest[i] == ".." && forall j :: 0 <= j < i ==> rest[j] != ".."
  {
    if rest[0] == ".." {
      i := 0;
    } else {
      var k :| 0 <= k < |rest| && rest[k] == "..";
      assert rest[1..][k - 1] == "..";
      i := FirstUp(rest[1..]);
      i := i + 1;
    }
  }

  lemma TurnsOn(inputs: Inputs, at: Path, rest: seq<string>)
    requires rest != [] && TurnsClear(inputs, at, rest)
    ensures TurnsClear(inputs, at + [rest[0]], rest[1..])
  {
    var here, tail := at + [rest[0]], rest[1..];
    forall i | 0 <= i < |tail| && tail[i] == ".."
      ensures Unlinked(inputs, Norm(here + tail[..i]))
    {
      assert rest[i + 1] == ".." && here + tail[..i] == at + rest[..i + 1];
    }
  }

  lemma TurnsBack(inputs: Inputs, at: Path, rest: seq<string>)
    requires AllPlain(at) && at != [] && rest != [] && rest[0] == ".." && TurnsClear(inputs, at, rest)
    ensures TurnsClear(inputs, at[..|at| - 1], rest[1..])
  {
    var up, tail := at[..|at| - 1], rest[1..];
    forall i | 0 <= i < |tail| && tail[i] == ".."
      ensures Unlinked(inputs, Norm(up + tail[..i]))
    {
      assert rest[i + 1] == ".." && at + rest[..i + 1] == at + ([".."] + tail[..i]);
      NormUp(at, tail[..i]);
    }
  }

  /** Where a resolution ends, if it returns. */
  ghost function Resolved(r: Result<Path, LinkError>): Option<Path> {
    if r.Ok? then Some(r.value) else None
  }

  /** Where a walk ends, if it ends inside the closure. */
  ghost function Reached(closure: set<Path>, r: Result<Path, WalkError>): Option<Path> {
    if r.Ok? && r.value in closure then Some(r.value) else None
  }

  /** Walking `p` from the root is taking its rewriting step first. */
  ghost predicate HopIsWalk(inputs: Inputs, hop: Path -> Hop, p: Path, spent: set<Path>, budget: nat) {
    Walk(inputs, [], p, spent, budget) ==
      match hop(p)
      case Settled => Ok(p)
      case Leave(link) => if link in spent || budget == 0 then Err(Loop) else Err(AboveRoot)
      case Go(link, next) =>
        if link in spent || budget == 0 then Err(Loop) else Walk(inputs, [], next, spent + {link}, budget - 1)
  }

  /** Plain paths step to plain paths, and each step agrees with the walk. */
  ghost predicate HopsAreWalks(inputs: Inputs, hop: Path -> Hop) {
    && (forall p :: AllPlain(p) && hop(p).Go? ==> AllPlain(hop(p).next))
    && (forall p, spent, budget: nat :: AllPlain(p) ==> HopIsWalk(inputs, hop, p, spent, budget))
  }

  lemma {:induction false} RewritingIsWalking(inputs: Inputs, hop: Path -> Hop, closure: set<Path>, p: Path, seen: set<Path>, rounds: nat)
    requires HopsAreWalks(inputs, hop) && AllPlain(p) && rounds > 0
    ensures Resolved(Resolve(hop, closure, p, seen, rounds)) == Reached(closure, Walk(inputs, [], p, seen, rounds - 1))
    decreases rounds
  {
    assert HopIsWalk(inputs, hop, p, seen, rounds - 1);
    if rounds > 1 && hop(p).Go? && hop(p).link !in seen {
      RewritingIsWalking(inputs, hop, closure, hop(p).next, seen + {hop(p).link}, rounds - 1);
    }
  }

  lemma HopperWalks(inputs: Inputs)
    requires ClearTargets(inputs)
    ensures HopsAreWalks(inputs, Hopper(inputs))
  {
    var hop := Hopper(inputs);
    forall p, spent, budget: nat | AllPlain(p)
      ensures HopIsWalk(inputs, hop, p, spent, budget)
    {
      StepIsWalk(inputs, p, spent, budget);
    }
    forall p | AllPlain(p) && hop(p).Go?
      ensures AllPlain(hop(p).next)
    {
      StepIsWalk(inputs, p, {}, 0);
    }
  }

  lemma StepIsWalk(inputs: Inputs, p: Path, spent: set<Path>, budget: nat)
    requires ClearTargets(inputs) && AllPlain(p)
    ensures HopIsWalk(inputs, Hopper(inputs), p, spent, budget)
    ensures NextHop(inputs, p).Go? ==> AllPlain(NextHop(inputs, p).next)
  {
    var first := FirstLink(inputs, p, 1);
    if first.None? {
      StepSettles(inputs, p, spent, budget);
    } else {
      StepFollows(inputs, p, first.value, spent, budget);
    }
  }

  lemma StepSettles(inputs: Inputs, p: Path, spent: set<Path>, budget: nat)
    requires AllPlain(p) && FirstLink(inputs, p, 1) == None
    ensures NextHop(inputs, p) == Settled && Walk(inputs, [], p, spent, budget) == Ok(p)
  {
    WalkAlong(inputs, p, |p|, spent, budget);
    assert p[..|p|] == p && p[|p|..] == [];
  }

  lemma StepFollows(inputs: Inputs, p: Path, count: nat, spent: set<Path>, budget: nat)
    requires ClearTargets(inputs) && AllPlain(p) && FirstLink(inputs, p, 1) == Some(count)
    ensures HopIsWalk(inputs, Hopper(inputs), p, spent, budget)
    ensures NextHop(inputs, p).Go? ==> AllPlain(NextHop(inputs, p).next)
  {
    ReachFirstLink(inputs, p, count, spent, budget);
    WalkThroughLink(inputs, p, count, spent + {p[..count]}, if budget == 0 then 0 else budget - 1);
  }

  /**
    * With targets that never turn back over a link, rewriting path text is exact: a name resolves to `t` exactly when the walk
    * that follows each link at most once, and fewer links than there are rounds, ends at `t` inside
    * the closure.
    */
  lemma ResolveIsWalk(inputs: Inputs, directories: set<Path>, name: Path)
    requires ClearTargets(inputs) && AllPlain(name)
    ensures Resolved(ResolveName(inputs, directories, name))
            == Reached(inputs.Keys + directories, Walk(inputs, [], name, {}, MAX_ROUNDS - 1))
  {
    ResolveIsWalkIn(inputs, inputs.Keys + directories, name, MAX_ROUNDS);
  }

  lemma ResolveIsWalkIn(inputs: Inputs, closure: set<Path>, name: Path, rounds: nat)
    requires ClearTargets(inputs) && AllPlain(name) && rounds > 0
    ensures Resolved(Resolve(Hopper(inputs), closure, name, {}, rounds)) == Reached(closure, Walk(inputs, [], name, {}, rounds - 1))
  {
    HopperWalks(inputs);
    RewritingIsWalking(inputs, Hopper(inputs), closure, name, {}, rounds);
  }

  /** So a name that resolves is where the kernel ends up too. */
  lemma ResolveAgreesWithKernel(inputs: Inputs, directories: set<Path>, name: Path)
    requires ClearTargets(inputs) && AllPlain(name)
    ensures var r := ResolveName(inputs, directories, name);
            r.Ok? ==> KernelWalk(inputs, [], name, MAX_ROUNDS - 1) == Ok(r.value)
  {
    ResolveIsWalk(inputs, directories, name);
    if ResolveName(inputs, directories, name).Ok? {
      WalkIsKernelWalk(inputs, [], name, {}, MAX_ROUNDS - 1);
    }
  }

  /** Walking on from the first link is walking the rewritten path from the root. */
  lemma WalkThroughLink(inputs: Inputs, p: Path, count: nat, spent: set<Path>, budget: nat)
    requires ClearTargets(inputs) && AllPlain(p) && 1 <= count <= |p| && IsLink(inputs, p[..count])
    requires forall k :: 1 <= k < count ==> !IsLink(inputs, p[..k])
    ensures var target := inputs[p[..count]].target;
            var next := Expand(p[..count], target, p[count..]);
            && (!Escapes(next) ==> AllPlain(next))
            && Walk(inputs, p[..count - 1], Parts(target) + p[count..], spent, budget)
               == if Escapes(next) then Err(AboveRoot) else Walk(inputs, [], next, spent, budget)
  {
    var dir, tail := p[..count - 1], Parts(inputs[p[..count]].target) + p[count..];
    ExpandIsNorm(p, count, inputs[p[..count]].target);
    LinkIsReady(inputs, p, count);
    WalkNormal(inputs, dir, tail, spent, budget);
    NormShape(dir + tail);
  }

  lemma LinkIsReady(inputs: Inputs, p: Path, count: nat)
    requires ClearTargets(inputs) && AllPlain(p) && 1 <= count <= |p| && IsLink(inputs, p[..count])
    requires forall k :: 1 <= k < count ==> !IsLink(inputs, p[..k])
    ensures var dir, tail := p[..count - 1], Parts(inputs[p[..count]].target) + p[count..];
            Clear(inputs, dir) && AllKept(tail) && TurnsClear(inputs, dir, tail)
  {
    var prefix, dir := p[..count], p[..count - 1];
    assert forall k :: 1 <= k <= |dir| ==> dir[..k] == p[..k];
    LinkTail(inputs, prefix, p[count..]);
    assert prefix[..|prefix| - 1] == dir;
  }

  lemma ExpandIsNorm(p: Path, count: nat, target: string)
    requires 1 <= count <= |p|
    ensures Expand(p[..count], target, p[count..]) == Norm(p[..count - 1] + (Parts(target) + p[count..]))
  {
    assert p[..count][..count - 1] == p[..count - 1];
    assert p[..count - 1] + (Parts(target) + p[count..]) == p[..count - 1] + Parts(target) + p[count..];
  }

  /** What remains to be walked after a link turns back only where the target does. */
  lemma LinkTail(inputs: Inputs, prefix: Path, rest: Path)
    requires ClearTargets(inputs) && IsLink(inputs, prefix) && prefix != [] && AllPlain(rest)
    ensures AllKept(Parts(inputs[prefix].target) + rest)
    ensures TurnsClear(inputs, prefix[..|prefix| - 1], Parts(inputs[prefix].target) + rest)
  {
    var parts := Parts(inputs[prefix].target);
    assert forall i :: 0 <= i < |parts| ==> parts[i] in parts;
    assert forall i :: 0 <= i < |parts| ==> (parts + rest)[..i] == parts[..i];
  }

  /** The walk reaches the first link with the directory that holds it behind, and follows it if it may. */
  lemma ReachFirstLink(inputs: Inputs, p: Path, count: nat, spent: set<Path>, budget: nat)
    requires AllPlain(p) && 1 <= count <= |p| && IsLink(inputs, p[..count])
    requires forall k :: 1 <= k < count ==> !IsLink(inputs, p[..k])
    ensures Walk(inputs, [], p, spent, budget)
            == if p[..count] in spent || budget == 0 then Err(Loop)
               else Walk(inputs, p[..count - 1], Parts(inputs[p[..count]].target) + p[count..], spent + {p[..count]}, budget - 1)
  {
    WalkAlong(inputs, p, count - 1, spent, budget);
    assert p[..count - 1] + [p[count - 1]] == p[..count];
    assert p[count - 1..][1..] == p[count..];
  }

  /** A link straight to a link-free place of the closure resolves to it. */
  lemma StraightLink(inputs: Inputs, directories: set<Path>, dir: Path, d: string, into: Path)
    requires Clear(inputs, dir) && IsPlain(d) && IsLink(inputs, dir + [d]) && !IsAbsolute(inputs[dir + [d]].target)
    requires into == Norm(dir + Parts(inputs[dir + [d]].target)) && Clear(inputs, into) && into in inputs.Keys + directories
    ensures ResolveName(inputs, directories, dir + [d]) == Ok(into)
  {
    var p := dir + [d];
    LastIsFirst(inputs, dir, d);
    assert dir + Parts(inputs[p].target) + [] == dir + Parts(inputs[p].target);
    assert !Escapes(into);
    ClearIsSettled(inputs, into);
    assert Hopper(inputs)(p) == Go(p, into) && Hopper(inputs)(into) == Settled;
    assert Resolve(Hopper(inputs), inputs.Keys + directories, into, {} + {p}, MAX_ROUNDS - 1) == Ok(into);
  }

  /** The only link on the way to `dir/l` is that link itself. */
  lemma LastIsFirst(inputs: Inputs, dir: Path, l: string)
    requires Clear(inputs, dir) && IsLink(inputs, dir + [l])
    ensures var p := dir + [l];
            FirstLink(inputs, p, 1) == Some(|p|) && p[..|p|] == p && p[|p|..] == [] && p[..|p| - 1] == dir
  {
    var p := dir + [l];
    assert p[..|p|] == p && p[|p|..] == [] && p[..|p| - 1] == dir;
    assert forall k :: 1 <= k < |p| ==> p[..k] == dir[..k];
  }

  // Where the two part.

  /** A link at `dir/l` whose target is `d/../z`, where `d` is itself a link to the directory `into`. */
  ghost predicate TurnsOverLink(inputs: Inputs, dir: Path, l: string, d: string, z: string, into: Path) {
    && Clear(inputs, dir) && IsPlain(l) && IsPlain(d) && IsPlain(z) && l != d
    && IsLink(inputs, dir + [l]) && !IsAbsolute(inputs[dir + [l]].target) && Parts(inputs[dir + [l]].target) == [d, "..", z]
    && IsLink(inputs, dir + [d]) && AllKept(Parts(inputs[dir + [d]].target)) && TurnsClear(inputs, dir, Parts(inputs[dir + [d]].target))
    && into == Norm(dir + Parts(inputs[dir + [d]].target)) && into != [] && Clear(inputs, into)
    && !IsLink(inputs, dir + [z]) && !IsLink(inputs, into[..|into| - 1] + [z])
  }

  lemma ClearChild(inputs: Inputs, at: Path, z: string)
    requires Clear(inputs, at) && IsPlain(z) && !IsLink(inputs, at + [z])
    ensures Clear(inputs, at + [z])
  {
    var p := at + [z];
    assert p[..|p|] == p;
    assert forall k :: 1 <= k <= |at| ==> p[..k] == at[..k];
  }

  lemma ClearIsSettled(inputs: Inputs, p: Path)
    requires Clear(inputs, p)
    ensures NextHop(inputs, p) == Settled
  {
  }

  /** As text, `d` and `..` cancel. */
  lemma TextCancels(inputs: Inputs, directories: set<Path>, dir: Path, l: string, d: string, z: string, into: Path)
    requires TurnsOverLink(inputs, dir, l, d, z, into) && dir + [z] in inputs.Keys + directories
    ensures ResolveName(inputs, directories, dir + [l]) == Ok(dir + [z])
  {
    var p := dir + [l];
    TextHop(inputs, dir, l, d, z, into);
    ClearChild(inputs, dir, z);
    ClearIsSettled(inputs, dir + [z]);
    assert Hopper(inputs)(p) == Go(p, dir + [z]) && Hopper(inputs)(dir + [z]) == Settled;
    assert Resolve(Hopper(inputs), inputs.Keys + directories, dir + [z], {} + {p}, MAX_ROUNDS - 1) == Ok(dir + [z]);
  }

  lemma TextHop(inputs: Inputs, dir: Path, l: string, d: string, z: string, into: Path)
    requires TurnsOverLink(inputs, dir, l, d, z, into)
    ensures NextHop(inputs, dir + [l]) == Go(dir + [l], dir + [z])
  {
    LastIsFirst(inputs, dir, l);
    CancelsAsText(dir, d, z);
    assert dir + [d, "..", z] + [] == dir + [d, "..", z];
  }

  lemma CancelsAsText(dir: Path, d: string, z: string)
    requires AllPlain(dir) && IsPlain(d) && IsPlain(z)
    ensures Norm(dir + [d, "..", z]) == dir + [z] && !Escapes(dir + [z])
  {
    var at := dir + [d];
    NormUpOn(at, z);
    assert at + ["..", z] == dir + [d, "..", z] && at[..|at| - 1] == dir;
  }

  lemma WalkIntoLink(inputs: Inputs, dir: Path, d: string, tail: seq<string>, spent: set<Path>, budget: nat)
    requires d != ".." && IsLink(inputs, dir + [d]) && dir + [d] !in spent && budget > 0
    ensures Walk(inputs, dir, [d] + tail, spent, budget)
            == Walk(inputs, dir, Parts(inputs[dir + [d]].target) + tail, spent + {dir + [d]}, budget - 1)
  {
    assert ([d] + tail)[1..] == tail;
  }

  /** A link-free place is reached. */
  lemma WalkArrives(inputs: Inputs, end: Path, spent: set<Path>, budget: nat)
    requires Clear(inputs, end)
    ensures Walk(inputs, [], end, spent, budget) == Ok(end)
  {
    WalkAlong(inputs, end, |end|, spent, budget);
    assert end[..|end|] == end && end[|end|..] == [];
  }

  /** Walking a link's target and then `../z` ends beside the place the link leads to. */
  lemma WalkBackOver(inputs: Inputs, dir: Path, parts: seq<string>, z: string, into: Path, spent: set<Path>, budget: nat)
    requires Clear(inputs, dir) && AllKept(parts) && TurnsClear(inputs, dir, parts) && IsPlain(z)
    requires into == Norm(dir + parts) && into != [] && Clear(inputs, into) && !IsLink(inputs, into[..|into| - 1] + [z])
    ensures Walk(inputs, dir, parts + ["..", z], spent, budget) == Ok(into[..|into| - 1] + [z])
  {
    var back, end := parts + ["..", z], into[..|into| - 1] + [z];
    BackTurns(inputs, dir, parts, z, into);
    BackNorm(dir, parts, z, into);
    WalkNormal(inputs, dir, back, spent, budget);
    ClearParent(inputs, into);
    ClearChild(inputs, into[..|into| - 1], z);
    WalkArrives(inputs, end, spent, budget);
  }

  lemma BackTurns(inputs: Inputs, dir: Path, parts: seq<string>, z: string, into: Path)
    requires AllKept(parts) && TurnsClear(inputs, dir, parts) && IsPlain(z) && into == Norm(dir + parts) && Clear(inputs, into)
    ensures AllKept(parts + ["..", z]) && TurnsClear(inputs, dir, parts + ["..", z])
  {
    var back := parts + ["..", z];
    forall i | 0 <= i < |back| && back[i] == ".."
      ensures Unlinked(inputs, Norm(dir + back[..i]))
    {
      assert i <= |parts|;
      assert back[..i] == parts[..i];
      assert i == |parts| ==> parts[..i] == parts;
    }
  }

  lemma BackNorm(dir: Path, parts: seq<string>, z: string, into: Path)
    requires into == Norm(dir + parts) && into != [] && AllPlain(into) && IsPlain(z)
    ensures Norm(dir + (parts + ["..", z])) == into[..|into| - 1] + [z] && !Escapes(into[..|into| - 1] + [z])
  {
    NormFront(dir + parts, ["..", z]);
    assert dir + parts + ["..", z] == dir + (parts + ["..", z]);
    NormUpOn(into, z);
  }

  /** The walk goes into the link first, and leaves where it has arrived. */
  lemma WalkLeavesTheTarget(inputs: Inputs, dir: Path, l: string, d: string, z: string, into: Path)
    requires TurnsOverLink(inputs, dir, l, d, z, into)
    ensures Walk(inputs, [], dir + [l], {}, MAX_ROUNDS - 1) == Ok(into[..|into| - 1] + [z])
  {
    var p, q := dir + [l], dir + [d];
    WalkToLink(inputs, dir, l, {}, MAX_ROUNDS - 1);
    assert q[|dir|] != p[|dir|];
    assert [d] + ["..", z] == [d, "..", z];
    WalkIntoLink(inputs, dir, d, ["..", z], {} + {p}, MAX_ROUNDS - 2);
    WalkBackOver(inputs, dir, Parts(inputs[q].target), z, into, {} + {p} + {q}, MAX_ROUNDS - 3);
  }

  lemma WalkToLink(inputs: Inputs, dir: Path, l: string, spent: set<Path>, budget: nat)
    requires Clear(inputs, dir) && IsPlain(l) && IsLink(inputs, dir + [l]) && dir + [l] !in spent && budget > 0
    ensures Walk(inputs, [], dir + [l], spent, budget)
            == Walk(inputs, dir, Parts(inputs[dir + [l]].target), spent + {dir + [l]}, budget - 1)
  {
    var p := dir + [l];
    assert p[..|p|] == p && p[|p|..] == [] && p[..|p| - 1] == dir;
    assert forall k :: 1 <= k < |p| ==> p[..k] == dir[..k];
    ReachFirstLink(inputs, p, |p|, spent, budget);
    assert Parts(inputs[p].target) + [] == Parts(inputs[p].target);
  }

  /**
    * So for such a link the two ends differ exactly when `into` lies elsewhere than beside the link: the
    * resolver names `dir/z`, and the kernel arrives at the `z` beside `into`.
    */
  lemma {:induction false} TextAndKernelPart(inputs: Inputs, directories: set<Path>, dir: Path, l: string, d: string, z: string, into: Path)
    requires TurnsOverLink(inputs, dir, l, d, z, into) && dir + [z] in inputs.Keys + directories
    ensures ResolveName(inputs, directories, dir + [l]) == Ok(dir + [z])
    ensures KernelWalk(inputs, [], dir + [l], MAX_ROUNDS - 1) == Ok(into[..|into| - 1] + [z])
    ensures dir + [z] == into[..|into| - 1] + [z] <==> dir == into[..|into| - 1]
  {
    TextCancels(inputs, directories, dir, l, d, z, into);
    WalkLeavesTheTarget(inputs, dir, l, d, z, into);
    WalkIsKernelWalk(inputs, [], dir + [l], {}, MAX_ROUNDS - 1);
    var up := into[..|into| - 1];
    assert (dir + [z])[..|dir|] == dir && (up + [z])[..|up|] == up;
  }
}
