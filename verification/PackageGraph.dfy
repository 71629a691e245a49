/** The workspace as a graph: packages are nodes, manifest dependency keys are edges. */
module PackageGraph {

  datatype Package = Package(
    name: string,
    version: string,
    npm: bool,
    harness: bool,
    dependencies: seq<string>,
    optionalDependencies: seq<string>)

  /** The build order reads `dependencies` only; the npm order and the npm closure read both kinds. */
  datatype EdgeKind = RequiredOnly | RequiredAndOptional

  function Edges(kind: EdgeKind, p: Package): seq<string> {
    match kind
    case RequiredOnly => p.dependencies
    case RequiredAndOptional => p.dependencies + p.optionalDependencies
  }

  function Names(ps: seq<Package>): set<string> {
    set p | p in ps :: p.name
  }

  function Members(ps: seq<Package>): set<Package> {
    set p | p in ps
  }

  ghost predicate DistinctNames(ps: seq<Package>) {
    forall i, j :: 0 <= i < j < |ps| ==> ps[i].name != ps[j].name
  }

  /** `new Map(ps.map(p => [p.name, p]))`: a repeated name keeps the last package. */
  function ByName(ps: seq<Package>): (m: map<string, Package>)
    ensures m.Keys == Names(ps)
    ensures forall n :: n in m ==> m[n] in ps && m[n].name == n
    ensures DistinctNames(ps) ==> forall p :: p in ps ==> m[p.name] == p
  {
    if ps == [] then map[]
    else
      var front, last := ps[..|ps| - 1], ps[|ps| - 1];
      assert ps == front + [last];
      assert DistinctNames(ps) ==> DistinctNames(front) && last.name !in Names(front);
      ByName(front)[last.name := last]
  }

  /** `p` is the last package with its name. */
  ghost predicate IsLastOf(ps: seq<Package>, p: Package) {
    exists i :: 0 <= i < |ps| && ps[i] == p && forall j :: i < j < |ps| ==> ps[j].name != p.name
  }

  lemma LastStays(front: seq<Package>, last: Package, p: Package)
    ensures IsLastOf(front + [last], last)
    ensures IsLastOf(front, p) && p.name != last.name ==> IsLastOf(front + [last], p)
  {
    var ps := front + [last];
    assert ps[|front|] == last;
    if IsLastOf(front, p) && p.name != last.name {
      var i :| 0 <= i < |front| && front[i] == p && forall j :: i < j < |front| ==> front[j].name != p.name;
      assert ps[i] == p && forall j :: i < j < |ps| ==> ps[j] == if j < |front| then front[j] else last;
    }
  }

  lemma ByNameOfLast(front: seq<Package>, last: Package)
    ensures ByName(front + [last]) == ByName(front)[last.name := last]
  {
    assert (front + [last])[..|front|] == front;
  }

  /** A repeated name keeps its last package. */
  lemma {:induction false} ByNameKeepsLast(ps: seq<Package>, n: string)
    ensures n in ByName(ps) ==> IsLastOf(ps, ByName(ps)[n])
    decreases |ps|
  {
    if ps != [] {
      var front, last := ps[..|ps| - 1], ps[|ps| - 1];
      var less := ByName(front);
      assert front + [last] == ps;
      ByNameOfLast(front, last);
      ByNameKeepsLast(front, n);
      LastStep(front, last, less, n);
    }
  }

  lemma LastStep(front: seq<Package>, last: Package, m: map<string, Package>, n: string)
    requires n in m ==> m[n].name == n && IsLastOf(front, m[n])
    ensures n in m[last.name := last] ==> IsLastOf(front + [last], m[last.name := last][n])
  {
    if n in m[last.name := last] {
      LastStays(front, last, m[last.name := last][n]);
    }
  }

  /** Some package named `a` stands before all packages named `b`. */
  ghost predicate ComesFirst(ps: seq<Package>, a: string, b: string) {
    exists k :: 0 <= k < |ps| && ps[k].name == a && forall l :: 0 <= l <= k ==> ps[l].name != b
  }

  /** `map.values()` visits a key where it was first inserted, so a repeated name keeps its first place. */
  function KeyOrder(ps: seq<Package>): (names: seq<string>)
    ensures forall n :: n in names <==> n in Names(ps)
    ensures forall i, j :: 0 <= i < j < |names| ==> names[i] != names[j]
  {
    if ps == [] then []
    else
      var front, last := ps[..|ps| - 1], ps[|ps| - 1];
      assert ps == front + [last];
      if last.name in KeyOrder(front) then KeyOrder(front) else KeyOrder(front) + [last.name]
  }

  lemma FirstStays(front: seq<Package>, last: Package, a: string, b: string)
    ensures ComesFirst(front, a, b) ==> ComesFirst(front + [last], a, b)
    ensures a in Names(front) && b !in Names(front) ==> ComesFirst(front + [last], a, b)
  {
    var ps := front + [last];
    if ComesFirst(front, a, b) {
      var k :| 0 <= k < |front| && front[k].name == a && forall l :: 0 <= l <= k ==> front[l].name != b;
      assert ps[k].name == a && forall l :: 0 <= l <= k ==> ps[l] == front[l];
    }
    if a in Names(front) && b !in Names(front) {
      var k :| 0 <= k < |front| && front[k].name == a;
      assert ps[k].name == a && forall l :: 0 <= l <= k ==> ps[l] == front[l] && front[l] in front;
    }
  }

  /** Keys stand in the order of their first packages. */
  lemma {:induction false} KeysInFirstOrder(ps: seq<Package>, i: nat, j: nat)
    requires i < j < |KeyOrder(ps)|
    ensures ComesFirst(ps, KeyOrder(ps)[i], KeyOrder(ps)[j])
    decreases |ps|
  {
    var front, last := ps[..|ps| - 1], ps[|ps| - 1];
    var less, a, b := KeyOrder(front), KeyOrder(ps)[i], KeyOrder(ps)[j];
    assert front + [last] == ps;
    if j < |less| {
      KeysInFirstOrder(front, i, j);
    } else {
      assert a == less[i] && a in less && b == last.name && b !in less;
    }
    FirstStays(front, last, a, b);
  }

  /** The values of that map, in its iteration order. */
  function MapValues(ps: seq<Package>): (values: seq<Package>)
    ensures |values| == |KeyOrder(ps)|
    ensures forall i :: 0 <= i < |values| ==> values[i].name == KeyOrder(ps)[i]
    ensures forall p :: p in values ==> p.name in ByName(ps) && p == ByName(ps)[p.name]
  {
    Lookup(ByName(ps), KeyOrder(ps))
  }

  function Lookup(m: map<string, Package>, names: seq<string>): (values: seq<Package>)
    requires forall n :: n in names ==> n in m && m[n].name == n
    ensures |values| == |names|
    ensures forall i :: 0 <= i < |values| ==> values[i].name == names[i]
    ensures forall p :: p in values ==> p.name in m && p == m[p.name]
  {
    if names == [] then [] else [m[names[0]]] + Lookup(m, names[1..])
  }

  lemma MapValuesCover(ps: seq<Package>)
    ensures Names(MapValues(ps)) == ByName(ps).Keys && Members(MapValues(ps)) <= ByName(ps).Values
  {
    var values := MapValues(ps);
    forall n | n in ByName(ps)
      ensures n in Names(values)
    {
      assert n in KeyOrder(ps);
      var i :| 0 <= i < |values| && KeyOrder(ps)[i] == n;
      assert values[i] in values;
    }
  }

  /** Each package's edges lead to the name of the next one. */
  ghost predicate Linked(kind: EdgeKind, c: seq<Package>) {
    forall i :: 0 <= i < |c| - 1 ==> c[i + 1].name in Edges(kind, c[i])
  }

  ghost predicate IsCycle(kind: EdgeKind, nodes: set<Package>, c: seq<Package>) {
    && c != []
    && (forall p :: p in c ==> p in nodes)
    && Linked(kind, c)
    && c[0].name in Edges(kind, c[|c| - 1])
  }

  ghost predicate CycleThrough(kind: EdgeKind, nodes: set<Package>, name: string) {
    exists c: seq<Package> :: IsCycle(kind, nodes, c) && c[0].name == name
  }

  ghost predicate HasCycle(kind: EdgeKind, nodes: set<Package>) {
    exists c :: IsCycle(kind, nodes, c)
  }

  // The same in terms of the manifest's two fields.

  /** Each package lists the next, and the last lists the first, as a dependency or an optional dependency. */
  ghost predicate IsRing(nodes: set<Package>, c: seq<Package>) {
    && c != [] && (forall p :: p in c ==> p in nodes)
    && forall i :: 0 <= i < |c| ==> Following(c, i) in c[i].dependencies || Following(c, i) in c[i].optionalDependencies
  }

  /** The name of the next package around `c`. */
  ghost function Following(c: seq<Package>, i: nat): string
    requires i < |c|
  {
    if i + 1 < |c| then c[i + 1].name else c[0].name
  }

  /** The same through `dependencies` alone. */
  ghost predicate IsRequiredRing(nodes: set<Package>, c: seq<Package>) {
    && c != [] && (forall p :: p in c ==> p in nodes)
    && forall i :: 0 <= i < |c| ==> Following(c, i) in c[i].dependencies
  }

  ghost predicate RingThrough(nodes: set<Package>, name: string) {
    exists c: seq<Package> :: IsRing(nodes, c) && c[0].name == name
  }

  ghost predicate RequiredRingThrough(nodes: set<Package>, name: string) {
    exists c: seq<Package> :: IsRequiredRing(nodes, c) && c[0].name == name
  }

  /** Whatever a package lists in either field stands before it. */
  ghost predicate FieldsFirst(order: seq<Package>) {
    forall i, j | 0 <= i < |order| && 0 <= j < |order| ::
      order[j].name in order[i].dependencies || order[j].name in order[i].optionalDependencies ==> j < i
  }

  /** Whatever a package lists in `dependencies` stands before it. */
  ghost predicate RequiredFirst(order: seq<Package>) {
    forall i, j | 0 <= i < |order| && 0 <= j < |order| :: order[j].name in order[i].dependencies ==> j < i
  }

  ghost predicate HasRing(nodes: set<Package>) {
    exists c :: IsRing(nodes, c)
  }

  ghost predicate HasRequiredRing(nodes: set<Package>) {
    exists c :: IsRequiredRing(nodes, c)
  }

  lemma EdgesAreFields(p: Package, name: string)
    ensures name in Edges(RequiredAndOptional, p) <==> name in p.dependencies || name in p.optionalDependencies
    ensures name in Edges(RequiredOnly, p) <==> name in p.dependencies
  {
  }

  /** A cycle in terms of its following names. */
  lemma CycleMeans(kind: EdgeKind, nodes: set<Package>, c: seq<Package>)
    ensures IsCycle(kind, nodes, c)
            <==> c != [] && (forall p :: p in c ==> p in nodes) && forall i :: 0 <= i < |c| ==> Following(c, i) in Edges(kind, c[i])
  {
    if c != [] && forall i :: 0 <= i < |c| ==> Following(c, i) in Edges(kind, c[i]) {
      assert Following(c, |c| - 1) in Edges(kind, c[|c| - 1]);
      forall i | 0 <= i < |c| - 1
        ensures c[i + 1].name in Edges(kind, c[i])
      {
        assert Following(c, i) in Edges(kind, c[i]);
      }
    }
  }

  lemma CycleIsRing(nodes: set<Package>, c: seq<Package>)
    ensures IsCycle(RequiredAndOptional, nodes, c) <==> IsRing(nodes, c)
  {
    CycleMeans(RequiredAndOptional, nodes, c);
    forall i | 0 <= i < |c|
      ensures Following(c, i) in Edges(RequiredAndOptional, c[i])
              <==> Following(c, i) in c[i].dependencies || Following(c, i) in c[i].optionalDependencies
    {
      EdgesAreFields(c[i], Following(c, i));
    }
  }

  lemma CycleIsRequiredRing(nodes: set<Package>, c: seq<Package>)
    ensures IsCycle(RequiredOnly, nodes, c) <==> IsRequiredRing(nodes, c)
  {
    CycleMeans(RequiredOnly, nodes, c);
    forall i | 0 <= i < |c|
      ensures Following(c, i) in Edges(RequiredOnly, c[i]) <==> Following(c, i) in c[i].dependencies
    {
      EdgesAreFields(c[i], Following(c, i));
    }
  }

  /** Cycles are rings, wherever they start. */
  lemma HasCycleIsHasRing(nodes: set<Package>)
    ensures HasCycle(RequiredAndOptional, nodes) <==> HasRing(nodes)
    ensures HasCycle(RequiredOnly, nodes) <==> HasRequiredRing(nodes)
    ensures forall n :: CycleThrough(RequiredAndOptional, nodes, n) ==> RingThrough(nodes, n)
    ensures forall n :: CycleThrough(RequiredOnly, nodes, n) ==> RequiredRingThrough(nodes, n)
  {
    forall c
      ensures IsCycle(RequiredAndOptional, nodes, c) <==> IsRing(nodes, c)
      ensures IsCycle(RequiredOnly, nodes, c) <==> IsRequiredRing(nodes, c)
    {
      CycleIsRing(nodes, c);
      CycleIsRequiredRing(nodes, c);
    }
  }

  /** The names of `ds` that are keys of `inSet`; no other edge can constrain the order. */
  ghost function Inside(inSet: map<string, Package>, ds: seq<string>): set<string> {
    set d | d in ds && d in inSet
  }

  /** Every edge that stays inside `inSet` leads to a package placed strictly earlier. */
  ghost predicate DependenciesFirst(kind: EdgeKind, inSet: map<string, Package>, order: seq<Package>) {
    forall k :: 0 <= k < |order| ==> Inside(inSet, Edges(kind, order[k])) <= Names(order[..k])
  }

  /** A package may be appended once everything it needs has been placed. */
  lemma AppendKeepsOrder(kind: EdgeKind, inSet: map<string, Package>, order: seq<Package>, p: Package)
    requires DistinctNames(order) && DependenciesFirst(kind, inSet, order) && p.name !in Names(order)
    requires Inside(inSet, Edges(kind, p)) <= Names(order)
    ensures Names(order + [p]) == Names(order) + {p.name}
    ensures DistinctNames(order + [p]) && DependenciesFirst(kind, inSet, order + [p])
  {
    var longer := order + [p];
    assert forall k :: 0 <= k <= |order| ==> longer[..k] == order[..k];
    assert order[..|order|] == order;
  }

  lemma LinkNext(kind: EdgeKind, chain: seq<Package>, next: Package)
    requires chain != [] && Linked(kind, chain) && next.name in Edges(kind, chain[|chain| - 1])
    ensures Linked(kind, chain + [next])
  {
  }

  /** A duplicate-free arrangement of exactly the packages of `inSet`, dependencies first. */
  ghost predicate IsDependencyOrder(kind: EdgeKind, inSet: map<string, Package>, order: seq<Package>) {
    && DistinctNames(order)
    && Names(order) == inSet.Keys
    && (forall p :: p in order ==> inSet[p.name] == p)
    && DependenciesFirst(kind, inSet, order)
  }

  /** Along an edge between two placed packages the position falls. */
  lemma EdgeGoesBack(kind: EdgeKind, inSet: map<string, Package>, order: seq<Package>, k: nat, p: Package)
    returns (j: nat)
    requires DistinctNames(order) && DependenciesFirst(kind, inSet, order)
    requires k < |order| && p in order && p.name in inSet
    requires p.name in Edges(kind, order[k])
    ensures j < k && order[j] == p
  {
    assert p.name in Inside(inSet, Edges(kind, order[k]));
    var q :| q in order[..k] && q.name == p.name;
    j :| 0 <= j < k && order[j] == q;
    var i :| 0 <= i < |order| && order[i] == p;
    assert i == j;
  }

  lemma OrderPutsFieldsFirst(inSet: map<string, Package>, order: seq<Package>)
    requires DistinctNames(order) && DependenciesFirst(RequiredAndOptional, inSet, order) && Names(order) <= inSet.Keys
    ensures FieldsFirst(order)
  {
    forall i, j | 0 <= i < |order| && 0 <= j < |order|
      ensures order[j].name in order[i].dependencies || order[j].name in order[i].optionalDependencies ==> j < i
    {
      assert order[j] in order;
      if order[j].name in order[i].dependencies || order[j].name in order[i].optionalDependencies {
        var k := EdgeGoesBack(RequiredAndOptional, inSet, order, i, order[j]);
      }
    }
  }

  lemma OrderPutsRequiredFirst(inSet: map<string, Package>, order: seq<Package>)
    requires DistinctNames(order) && DependenciesFirst(RequiredOnly, inSet, order) && Names(order) <= inSet.Keys
    ensures RequiredFirst(order)
  {
    forall i, j | 0 <= i < |order| && 0 <= j < |order|
      ensures order[j].name in order[i].dependencies ==> j < i
    {
      assert order[j] in order;
      if order[j].name in order[i].dependencies {
        var k := EdgeGoesBack(RequiredOnly, inSet, order, i, order[j]);
      }
    }
  }

  /** Walking `c` from its first package, the position in the order falls at every step. */
  lemma {:induction false} PositionsFall(kind: EdgeKind, inSet: map<string, Package>, order: seq<Package>,
                                         c: seq<Package>, n: nat, start: nat)
    returns (last: nat)
    requires DistinctNames(order) && DependenciesFirst(kind, inSet, order)
    requires n < |c| && Linked(kind, c)
    requires forall p :: p in c ==> p in order && p.name in inSet
    requires start < |order| && order[start] == c[0]
    ensures last <= start && order[last] == c[n]
  {
    if n == 0 {
      last := start;
    } else {
      var prev := PositionsFall(kind, inSet, order, c, n - 1, start);
      last := EdgeGoesBack(kind, inSet, order, prev, c[n]);
    }
  }

  /** Packages that can be placed dependencies first contain no cycle. */
  lemma OrderedHasNoCycle(kind: EdgeKind, inSet: map<string, Package>, order: seq<Package>)
    requires DistinctNames(order) && DependenciesFirst(kind, inSet, order)
    requires Names(order) <= inSet.Keys
    ensures !HasCycle(kind, Members(order))
  {
    forall c | IsCycle(kind, Members(order), c)
      ensures false
    {
      assert c[0] in c && c[0] in Members(order);
      var start :| 0 <= start < |order| && order[start] == c[0];
      var last := PositionsFall(kind, inSet, order, c, |c| - 1, start);
      var again := EdgeGoesBack(kind, inSet, order, last, c[0]);
    }
  }

  /** An order that covers `inSet` rules out every cycle in it. */
  lemma CompleteOrderHasNoCycle(kind: EdgeKind, inSet: map<string, Package>, order: seq<Package>)
    requires forall n :: n in inSet ==> inSet[n].name == n
    requires IsDependencyOrder(kind, inSet, order)
    ensures !HasCycle(kind, inSet.Values)
  {
    CompleteOrderMembers(kind, inSet, order);
    OrderedHasNoCycle(kind, inSet, order);
  }

  lemma CompleteOrderMembers(kind: EdgeKind, inSet: map<string, Package>, order: seq<Package>)
    requires forall n :: n in inSet ==> inSet[n].name == n
    requires IsDependencyOrder(kind, inSet, order)
    ensures Members(order) == inSet.Values
  {
    forall p | p in inSet.Values
      ensures p in order
    {
      assert p.name in Names(order);
    }
  }
}
