/** `npmRequiredClosure`: the workspace packages a consumer of the roots needs at run time. */
module RequiredClosure {
  import opened PackageGraph
  import opened NameOrder

  ghost predicate IsPath(byName: map<string, Package>, from: string, to: string, path: seq<string>) {
    && path != [] && path[0] == from && path[|path| - 1] == to
    && (forall n :: n in path ==> n in byName)
    && forall i :: 0 <= i < |path| - 1 ==> path[i + 1] in Edges(RequiredAndOptional, byName[path[i]])
  }

  ghost predicate Reaches(byName: map<string, Package>, from: string, to: string) {
    exists path :: IsPath(byName, from, to, path)
  }

  /** The workspace packages reachable from `roots`; names outside the workspace lead nowhere. */
  ghost function Closure(byName: map<string, Package>, roots: set<string>): set<string> {
    set n | n in byName && exists r :: r in roots && Reaches(byName, r, n)
  }

  /** `s` holds every workspace target of the edges of `n`. */
  ghost predicate Covers(byName: map<string, Package>, n: string, s: set<string>)
    requires n in byName
  {
    Inside(byName, Edges(RequiredAndOptional, byName[n])) <= s
  }

  /** It holds the workspace roots, and with a package all workspace packages that either field lists. */
  ghost predicate HoldsFields(byName: map<string, Package>, roots: set<string>, s: set<string>) {
    && roots * byName.Keys <= s <= byName.Keys
    && forall n, d :: n in s && d in byName && (d in byName[n].dependencies || d in byName[n].optionalDependencies) ==> d in s
  }

  lemma FieldsAreEdges(byName: map<string, Package>, roots: set<string>, s: set<string>)
    ensures HoldsFields(byName, roots, s) <==> roots * byName.Keys <= s && Closed(byName, s)
  {
    if roots * byName.Keys <= s && Closed(byName, s) {
      forall n, d | n in s && d in byName && (d in byName[n].dependencies || d in byName[n].optionalDependencies)
        ensures d in s
      {
        assert Covers(byName, n, s) && d in Inside(byName, Edges(RequiredAndOptional, byName[n]));
      }
    }
  }

  ghost predicate Closed(byName: map<string, Package>, s: set<string>) {
    s <= byName.Keys && forall n :: n in s ==> Covers(byName, n, s)
  }

  /** The `seen` set captured by the recursive `visit` closure. */
  class Reachability {
    const byName: map<string, Package>
    var seen: set<string>

    constructor (byName: map<string, Package>)
      ensures this.byName == byName && seen == {}
    {
      this.byName, seen := byName, {};
    }

    /** Everything newly seen is reachable from `name`, and nothing it needs is left out. */
    method Visit(name: string)
      requires seen <= byName.Keys
      modifies this`seen
      ensures old(seen) <= seen <= byName.Keys
      ensures name in byName ==> name in seen
      ensures forall n :: n in seen - old(seen) ==> Covers(byName, n, seen) && Reaches(byName, name, n)
      decreases byName.Keys - seen
    {
      if name in seen || name !in byName {
        return;
      }
      seen := seen + {name};
      StartPath(byName, name);
      var deps := Edges(RequiredAndOptional, byName[name]);
      for i := 0 to |deps|
        invariant old(seen) + {name} <= seen <= byName.Keys
        invariant Inside(byName, deps[..i]) <= seen
        invariant forall n :: n in seen - old(seen) ==> Reaches(byName, name, n)
        invariant forall n :: n in seen - old(seen) - {name} ==> Covers(byName, n, seen)
      {
        assert deps[..i + 1] == deps[..i] + [deps[i]];
        ghost var sofar := seen;
        Visit(deps[i]);
        forall n | n in seen - sofar
          ensures Reaches(byName, name, n)
        {
          PrependEdge(byName, name, deps[i], n);
        }
        forall n | n in seen - old(seen) - {name}
          ensures Covers(byName, n, seen)
        {
          assert n in sofar - old(seen) - {name} || n in seen - sofar;
        }
      }
      assert deps[..|deps|] == deps;
    }
  }

  lemma StartPath(byName: map<string, Package>, name: string)
    requires name in byName
    ensures Reaches(byName, name, name)
  {
    assert IsPath(byName, name, name, [name]);
  }

  lemma PrependEdge(byName: map<string, Package>, name: string, dep: string, to: string)
    requires name in byName && dep in Edges(RequiredAndOptional, byName[name])
    requires Reaches(byName, dep, to)
    ensures Reaches(byName, name, to)
  {
    var path :| IsPath(byName, dep, to, path);
    assert IsPath(byName, name, to, [name] + path);
  }

  /** A closed set that holds the first package of a path holds all of it. */
  lemma {:induction false} ClosedHoldsPath(byName: map<string, Package>, s: set<string>, path: seq<string>, k: nat)
    requires Closed(byName, s) && k < |path| && IsPath(byName, path[0], path[|path| - 1], path)
    requires path[0] in s
    ensures path[k] in s
  {
    if k > 0 {
      ClosedHoldsPath(byName, s, path, k - 1);
      assert path[k] in path;
      assert Covers(byName, path[k - 1], s);
      assert path[k] in Inside(byName, Edges(RequiredAndOptional, byName[path[k - 1]]));
    }
  }

  /** The closure contains the workspace roots and is closed under both edge kinds. */
  lemma ClosureIsClosed(byName: map<string, Package>, roots: set<string>)
    ensures roots * byName.Keys <= Closure(byName, roots) && Closed(byName, Closure(byName, roots))
    ensures HoldsFields(byName, roots, Closure(byName, roots))
  {
    FieldsAreEdges(byName, roots, Closure(byName, roots));
    forall r | r in roots && r in byName
      ensures r in Closure(byName, roots)
    {
      StartPath(byName, r);
    }
    forall n, d | n in Closure(byName, roots) && d in Inside(byName, Edges(RequiredAndOptional, byName[n]))
      ensures d in Closure(byName, roots)
    {
      var r :| r in roots && Reaches(byName, r, n);
      AppendEdge(byName, r, n, d);
    }
  }

  lemma AppendEdge(byName: map<string, Package>, from: string, name: string, dep: string)
    requires Reaches(byName, from, name) && name in byName
    requires dep in byName && dep in Edges(RequiredAndOptional, byName[name])
    ensures Reaches(byName, from, dep)
  {
    var path :| IsPath(byName, from, name, path);
    assert IsPath(byName, from, dep, path + [dep]);
  }

  /** It is the least such set. */
  lemma ClosureIsLeast(byName: map<string, Package>, roots: set<string>, s: set<string>)
    requires HoldsFields(byName, roots, s)
    ensures Closure(byName, roots) <= s
  {
    FieldsAreEdges(byName, roots, s);
    forall n | n in Closure(byName, roots)
      ensures n in s
    {
      var r :| r in roots && Reaches(byName, r, n);
      var path :| IsPath(byName, r, n, path);
      assert path[0] in path;
      ClosedHoldsPath(byName, s, path, |path| - 1);
    }
  }

  /**
    * The sorted closure. The result is the one strictly increasing list of the reachable workspace
    * packages, so it does not depend on the order or repetition of the roots.
    */
  method NpmRequiredClosure(workspace: seq<Package>, roots: seq<string>) returns (r: seq<string>)
    ensures Sorted(r) && InDictionaryOrder(r)
    ensures HoldsFields(ByName(workspace), Elements(roots), Elements(r))
    ensures forall s :: HoldsFields(ByName(workspace), Elements(roots), s) ==> Elements(r) <= s
    ensures Elements(r) == Closure(ByName(workspace), Elements(roots))
  {
    var byName := ByName(workspace);
    var reach := new Reachability(byName);
    ghost var goal := Closure(byName, Elements(roots));
    ClosureIsClosed(byName, Elements(roots));
    for i := 0 to |roots|
      invariant Elements(roots[..i]) * byName.Keys <= reach.seen <= goal
      invariant Closed(byName, reach.seen)
    {
      assert roots[..i + 1] == roots[..i] + [roots[i]];
      assert roots[i] in Elements(roots);
      reach.Visit(roots[i]);
    }
    assert roots[..|roots|] == roots;
    FieldsAreEdges(byName, Elements(roots), reach.seen);
    ClosureIsLeast(byName, Elements(roots), reach.seen);
    r := SortNames(reach.seen);
    FieldsAreEdges(byName, Elements(roots), Elements(r));
    forall s | HoldsFields(byName, Elements(roots), s)
      ensures Elements(r) <= s
    {
      ClosureIsLeast(byName, Elements(roots), s);
    }
  }

  /** `npmHarnessSet`: the names flagged `winter.publish.harness`. */
  function HarnessNames(workspace: seq<Package>): set<string> {
    set p | p in workspace && p.harness :: p.name
  }

  const NPM_ROOT_PACKAGE := "@yanlinglabs/winter-agent-sdk"
  const NPM_EMBEDDING_ROOT_PACKAGE := "@yanlinglabs/winter-agent-runtime"

  /** The default roots: the wrapper, the runtime and the harnesses. */
  function Roots(workspace: seq<Package>): set<string> {
    {NPM_ROOT_PACKAGE, NPM_EMBEDDING_ROOT_PACKAGE} + HarnessNames(workspace)
  }

  /** `npmExpectedSet`. */
  ghost function ExpectedSet(workspace: seq<Package>): set<string> {
    Closure(ByName(workspace), Roots(workspace))
  }

  ghost predicate IsRoot(p: Package) {
    p.name == "@yanlinglabs/winter-agent-sdk" || p.name == "@yanlinglabs/winter-agent-runtime" || p.harness
  }

  /** The wrapper, the runtime and every harness are in `s`, and whatever packages of `s` list in either field. */
  ghost predicate HoldsRelease(workspace: seq<Package>, s: set<string>) {
    && (forall p :: p in workspace && IsRoot(p) ==> p.name in s)
    && s <= Names(workspace)
    && forall p, q :: p in workspace && q in workspace && p.name in s && (q.name in p.dependencies || q.name in p.optionalDependencies)
                      ==> q.name in s
  }

  /** For a workspace of distinct names it is the least set of that kind. */
  lemma ExpectedSetIsLeast(workspace: seq<Package>, s: set<string>)
    requires DistinctNames(workspace)
    ensures HoldsRelease(workspace, ExpectedSet(workspace))
    ensures HoldsRelease(workspace, s) ==> ExpectedSet(workspace) <= s
  {
    var byName, roots := ByName(workspace), Roots(workspace);
    ClosureIsClosed(byName, roots);
    FieldsOfRelease(workspace, ExpectedSet(workspace));
    FieldsOfRelease(workspace, s);
    if HoldsRelease(workspace, s) {
      ClosureIsLeast(byName, roots, s);
    }
  }

  lemma RootsMean(workspace: seq<Package>, s: set<string>)
    ensures Roots(workspace) * Names(workspace) <= s
            <==> forall p :: p in workspace && IsRoot(p) ==> p.name in s
  {
    if Roots(workspace) * Names(workspace) <= s {
      forall p | p in workspace && IsRoot(p)
        ensures p.name in s
      {
        assert p.name in Names(workspace) && p.name in Roots(workspace);
      }
    }
  }

  lemma FieldsOfRelease(workspace: seq<Package>, s: set<string>)
    requires DistinctNames(workspace)
    ensures HoldsFields(ByName(workspace), Roots(workspace), s) <==> HoldsRelease(workspace, s)
  {
    var byName := ByName(workspace);
    RootsMean(workspace, s);
    if HoldsRelease(workspace, s) {
      forall n, d | n in s && d in byName && (d in byName[n].dependencies || d in byName[n].optionalDependencies)
        ensures d in s
      {
        assert byName[n] in workspace && byName[d] in workspace;
      }
    }
    if HoldsFields(byName, Roots(workspace), s) {
      forall p, q | p in workspace && q in workspace && p.name in s && (q.name in p.dependencies || q.name in p.optionalDependencies)
        ensures q.name in s
      {
        assert byName[p.name] == p && q.name in byName;
      }
    }
  }
}
