/** The three-state depth-first order of `npmPublishOrder` and `inDependencyOrder`. */
module DependencyOrder {
  import opened Outcome
  import opened PackageGraph
  import opened Picking

  datatype Mark = Visiting | Done

  /** How one `visit` ends: normally, or with the cycle error that names a package. */
  datatype Visit = Returned | Threw(through: string)

  /** The variables the recursive `visit` closure captures. */
  class DepthFirst {
    const kind: EdgeKind
    const inSet: map<string, Package>
    ghost const nodes: set<Package>
    var state: map<string, Mark>
    var ordered: seq<Package>

    ghost predicate Valid()
      reads this
    {
      && inSet.Values <= nodes
      && (forall n :: n in inSet ==> inSet[n].name == n)
      && (forall p :: p in ordered ==> p in nodes)
      && Names(ordered) <= state.Keys <= inSet.Keys
      && (forall n :: n in state ==> (state[n] == Done <==> n in Names(ordered)))
      && DistinctNames(ordered)
      && DependenciesFirst(kind, inSet, ordered)
    }

    /** The names whose visit has started and not finished. */
    ghost function Open(): set<string>
      reads this
    {
      state.Keys - Names(ordered)
    }

    constructor (kind: EdgeKind, inSet: map<string, Package>, ghost nodes: set<Package>)
      requires inSet.Values <= nodes
      requires forall n :: n in inSet ==> inSet[n].name == n
      ensures Valid() && Open() == {} && ordered == [] && state == map[]
      ensures this.kind == kind && this.inSet == inSet && this.nodes == nodes
    {
      this.kind, this.inSet, this.nodes := kind, inSet, nodes;
      state, ordered := map[], [];
    }

    /** `stack` is the chain of calls in progress: it carries exactly the open names, each linked to the next. */
    method Visit(pkg: Package, ghost stack: seq<Package>) returns (v: Visit)
      requires Valid() && pkg in nodes && pkg.name in inSet
      requires Names(stack) == Open() && Linked(kind, stack + [pkg])
      requires forall p :: p in stack ==> p in nodes
      modifies this`state, this`ordered
      ensures v.Threw? ==> CycleThrough(kind, nodes, v.through)
      ensures v.Returned? ==> Valid() && Open() == old(Open()) && pkg.name in Names(ordered)
      ensures v.Returned? ==> Names(old(ordered)) <= Names(ordered) && old(state.Keys) <= state.Keys
      decreases inSet.Keys - state.Keys, 0
    {
      if pkg.name in state {
        if state[pkg.name] == Done {
          return Returned;
        }
        CloseCycle(kind, nodes, stack, pkg);
        return Threw(pkg.name);
      }
      Enter(pkg);
      assert Names(stack + [pkg]) == Names(stack) + {pkg.name};
      v := VisitDependencies(pkg, stack + [pkg]);
      if v.Returned? {
        Emit(pkg);
      }
    }

    /** The loop over the manifest's dependency keys, for the package on top of the stack. */
    method VisitDependencies(pkg: Package, ghost chain: seq<Package>) returns (v: Visit)
      requires Valid() && chain != [] && chain[|chain| - 1] == pkg
      requires Names(chain) == Open() && Linked(kind, chain)
      requires forall p :: p in chain ==> p in nodes
      modifies this`state, this`ordered
      ensures v.Threw? ==> CycleThrough(kind, nodes, v.through)
      ensures v.Returned? ==> Valid() && Open() == old(Open()) && old(state.Keys) <= state.Keys
      ensures v.Returned? ==> Names(old(ordered)) <= Names(ordered)
      ensures v.Returned? ==> Inside(inSet, Edges(kind, pkg)) <= Names(ordered)
      decreases inSet.Keys - state.Keys, 1
    {
      var deps := Edges(kind, pkg);
      for i := 0 to |deps|
        invariant Valid() && Open() == Names(chain) && old(state.Keys) <= state.Keys
        invariant Names(old(ordered)) <= Names(ordered)
        invariant Inside(inSet, deps[..i]) <= Names(ordered)
      {
        assert deps[..i + 1] == deps[..i] + [deps[i]];
        if deps[i] in inSet {
          LinkNext(kind, chain, inSet[deps[i]]);
          v := Visit(inSet[deps[i]], chain);
          if v.Threw? {
            return v;
          }
        }
      }
      assert deps[..|deps|] == deps;
      v := Returned;
    }

    /** `state.set(name, "visiting")`. */
    method Enter(pkg: Package)
      requires Valid() && pkg.name in inSet && pkg.name !in state
      modifies this`state
      ensures Valid() && Open() == old(Open()) + {pkg.name}
      ensures state.Keys == old(state.Keys) + {pkg.name}
    {
      state := state[pkg.name := Visiting];
    }

    /** `for (const pkg of roots) visit(pkg)`. */
    method VisitAll(roots: seq<Package>) returns (v: Visit)
      requires Valid() && Open() == {} && ordered == []
      requires Members(roots) <= nodes && Names(roots) <= inSet.Keys
      modifies this`state, this`ordered
      ensures v.Threw? ==> CycleThrough(kind, nodes, v.through)
      ensures v.Returned? ==> Valid() && Open() == {} && Names(roots) <= Names(ordered)
    {
      for i := 0 to |roots|
        invariant Valid() && Open() == {}
        invariant Names(roots[..i]) <= Names(ordered)
      {
        assert roots[..i + 1] == roots[..i] + [roots[i]];
        v := Visit(roots[i], []);
        if v.Threw? {
          return;
        }
      }
      assert roots[..|roots|] == roots;
      v := Returned;
    }

    /** `state.set(name, "done"); ordered.push(pkg)` once every dependency has been emitted. */
    method Emit(pkg: Package)
      requires Valid() && pkg in nodes && pkg.name in Open()
      requires Inside(inSet, Edges(kind, pkg)) <= Names(ordered)
      modifies this`state, this`ordered
      ensures Valid() && Open() == old(Open()) - {pkg.name}
      ensures ordered == old(ordered) + [pkg] && state.Keys == old(state.Keys)
    {
      AppendKeepsOrder(kind, inSet, ordered, pkg);
      state := state[pkg.name := Done];
      ordered := ordered + [pkg];
    }
  }

  /** The open calls from the revisited package down to the current one form a cycle. */
  lemma CloseCycle(kind: EdgeKind, nodes: set<Package>, stack: seq<Package>, pkg: Package)
    requires Linked(kind, stack + [pkg]) && pkg.name in Names(stack)
    requires forall p :: p in stack ==> p in nodes
    ensures CycleThrough(kind, nodes, pkg.name)
  {
    var i :| 0 <= i < |stack| && stack[i].name == pkg.name;
    var c := stack[i..];
    var all := stack + [pkg];
    assert forall k :: 0 <= k < |c| ==> c[k] == all[i + k] && all[i + k + 1].name in Edges(kind, all[i + k]);
    assert IsCycle(kind, nodes, c) && c[0].name == pkg.name;
  }

  /** Visits `roots` from a fresh state; `nodes` holds every package a visit may be given. */
  method Order(kind: EdgeKind, inSet: map<string, Package>, roots: seq<Package>, ghost nodes: set<Package>)
    returns (r: Result<seq<Package>, string>)
    requires inSet.Values <= nodes && forall n :: n in inSet ==> inSet[n].name == n
    requires Members(roots) <= nodes && Names(roots) == inSet.Keys
    ensures r.Err? ==> CycleThrough(kind, nodes, r.error)
    ensures r.Ok? ==> DistinctNames(r.value) && Names(r.value) == inSet.Keys
    ensures r.Ok? ==> forall p :: p in r.value ==> p in nodes
    ensures r.Ok? ==> DependenciesFirst(kind, inSet, r.value)
  {
    var dfs := new DepthFirst(kind, inSet, nodes);
    var v := dfs.VisitAll(roots);
    return if v.Threw? then Err(v.through) else Ok(dfs.ordered);
  }

  /** `npmPublishSet`: the discovered packages flagged `winter.publish.npm`. */
  function NpmSet(workspace: seq<Package>): (r: seq<Package>)
    ensures forall p :: p in r <==> p in workspace && p.npm
    ensures Picked(workspace, (p: Package) => p.npm, r)
  {
    PickedNone((p: Package) => p.npm);
    if workspace == [] then []
    else
      var front, last := workspace[..|workspace| - 1], workspace[|workspace| - 1];
      PickedMore(front, (p: Package) => p.npm, NpmSet(front), last);
      assert workspace == front + [last];
      NpmSet(front) + if last.npm then [last] else []
  }

  /**
    * `npmPublishOrder`: for every workspace, either an order of exactly the npm set with both edge
    * kinds pointing backwards, or an error naming a package on a cycle; the error comes exactly
    * when the npm set has a cycle.
    */
  method NpmPublishOrder(workspace: seq<Package>) returns (r: Result<seq<Package>, string>)
    ensures r.Err? <==> HasRing(ByName(NpmSet(workspace)).Values)
    ensures r.Err? ==> RingThrough(ByName(NpmSet(workspace)).Values, r.error)
    ensures r.Ok? ==> DistinctNames(r.value) && Members(r.value) == ByName(NpmSet(workspace)).Values
    ensures r.Ok? ==> FieldsFirst(r.value)
    ensures r.Ok? ==> IsDependencyOrder(RequiredAndOptional, ByName(NpmSet(workspace)), r.value)
  {
    var npm := NpmSet(workspace);
    var inSet, values := ByName(npm), MapValues(npm);
    assert Members(values) <= inSet.Values && Names(values) == inSet.Keys by { MapValuesCover(npm); }
    r := Order(RequiredAndOptional, inSet, values, inSet.Values);
    if r.Ok? {
      assert forall p :: p in r.value ==> inSet[p.name] == p;
      CompleteOrderHasNoCycle(RequiredAndOptional, inSet, r.value);
      CompleteOrderMembers(RequiredAndOptional, inSet, r.value);
      OrderPutsFieldsFirst(inSet, r.value);
    }
    HasCycleIsHasRing(inSet.Values);
  }

  /**
    * `inDependencyOrder`, over `dependencies` alone. Every name comes out once and after the
    * packages it needs; an error implies a cycle. With distinct names the error comes exactly
    * when the packages have a cycle and the result holds every package given.
    */
  method InDependencyOrder(packages: seq<Package>) returns (r: Result<seq<Package>, string>)
    ensures r.Err? ==> RequiredRingThrough(Members(packages), r.error)
    ensures r.Ok? ==> DistinctNames(r.value) && Names(r.value) == Names(packages)
    ensures r.Ok? ==> forall p :: p in r.value ==> p in packages
    ensures r.Ok? ==> RequiredFirst(r.value)
    ensures DistinctNames(packages) ==> (r.Err? <==> HasRequiredRing(Members(packages)))
    ensures DistinctNames(packages) && r.Ok? ==> IsDependencyOrder(RequiredOnly, ByName(packages), r.value)
  {
    r := Order(RequiredOnly, ByName(packages), packages, Members(packages));
    if r.Ok? {
      OrderPutsRequiredFirst(ByName(packages), r.value);
      if DistinctNames(packages) {
        CompleteOrderHasNoCycle(RequiredOnly, ByName(packages), r.value);
        assert Members(packages) == ByName(packages).Values;
      }
    }
    HasCycleIsHasRing(Members(packages));
  }
}
