/** The npm publish and its re-drives, over a registry from which nothing is ever withdrawn. */
module PublishRun {
  import opened Outcome
  import opened PackageGraph
  import opened DependencyOrder
  import opened RequiredClosure

  /** One exact `<name>@<version>`. */
  datatype Entry = Entry(name: string, version: string)

  datatype Probe = Exists(version: string) | Absent | Unknown(reason: string)

  datatype Decision = Decision(entry: Entry, publish: bool, reason: string)

  /** What came of one upload; a reported failure may still have reached the registry. */
  datatype Upload = Accepted | Failed(landed: bool)

  datatype Attempt = Attempt(entry: Entry, ok: bool, before: set<Entry>)

  datatype Run = Run(registry: set<Entry>, attempts: seq<Attempt>, failed: nat)

  /** The three-answer decision: only a version known to be there is skipped. */
  function Decide(e: Entry, answer: Probe): Decision {
    match answer
    case Exists(version) => Decision(e, false, "already on this registry at " + version)
    case Absent => Decision(e, true, "not on this registry")
    case Unknown(reason) =>
      Decision(e, true, "could not be checked (" + reason + ") -- publishing anyway; the registry refuses a genuine duplicate")
  }

  function DecidePublishes(plan: seq<Entry>, probe: Entry -> Probe): (ds: seq<Decision>)
    ensures |ds| == |plan|
    ensures forall i :: 0 <= i < |ds| ==> ds[i].entry == plan[i] && (ds[i].publish <==> !probe(plan[i]).Exists?)
  {
    seq(|plan|, i requires 0 <= i < |plan| => Decide(plan[i], probe(plan[i])))
  }

  /** `known` gives the version of a workspace package, and so the version a packed manifest pins. */
  function EntryOf(known: map<string, Package>, name: string): Entry {
    Entry(name, if name in known then known[name].version else "")
  }

  /** The publish order restricted to the requested and packed names. */
  function PlanOf(known: map<string, Package>, order: seq<Package>, wanted: set<string>): seq<Entry> {
    if order == [] then []
    else
      var last := order[|order| - 1];
      PlanOf(known, order[..|order| - 1], wanted) + if last.name in wanted then [EntryOf(known, last.name)] else []
  }

  function Lands(dryRun: bool, u: Upload): bool {
    !dryRun && (u.Accepted? || u.landed)
  }

  /** The entries that decisions `ds` add to the registry. */
  ghost function Landed(ds: seq<Decision>, upload: Entry -> Upload, dryRun: bool): set<Entry> {
    set d | d in ds && d.publish && Lands(dryRun, upload(d.entry)) :: d.entry
  }

  /** One turn of the publish loop. */
  function Step(d: Decision, upload: Entry -> Upload, dryRun: bool, run: Run): Run {
    if !d.publish then run
    else
      var u := upload(d.entry);
      Run(run.registry + (if Lands(dryRun, u) then {d.entry} else {}),
          run.attempts + [Attempt(d.entry, u.Accepted?, run.registry)],
          run.failed + if u.Accepted? then 0 else 1)
  }

  function Publish(ds: seq<Decision>, upload: Entry -> Upload, dryRun: bool, registry: set<Entry>): Run {
    if ds == [] then Run(registry, [], 0)
    else Step(ds[|ds| - 1], upload, dryRun, Publish(ds[..|ds| - 1], upload, dryRun, registry))
  }

  /** The loop of the main block; it carries on after a failed upload. */
  method PublishLoop(ds: seq<Decision>, upload: Entry -> Upload, dryRun: bool, registry: set<Entry>)
    returns (run: Run)
    ensures run == Publish(ds, upload, dryRun, registry)
  {
    run := Run(registry, [], 0);
    for i := 0 to |ds|
      invariant run == Publish(ds[..i], upload, dryRun, registry)
    {
      assert ds[..i + 1][..i] == ds[..i];
      var d := ds[i];
      if d.publish {
        var u := upload(d.entry);
        var added := if Lands(dryRun, u) then {d.entry} else {};
        run := Run(run.registry + added,
                   run.attempts + [Attempt(d.entry, u.Accepted?, run.registry)],
                   run.failed + if u.Accepted? then 0 else 1);
      }
    }
    assert ds[..|ds|] == ds;
  }

  /** The registry gains exactly the landed entries, and the failure count is zero only without failures. */
  lemma {:induction false} RunEffect(ds: seq<Decision>, upload: Entry -> Upload, dryRun: bool, registry: set<Entry>)
    ensures Publish(ds, upload, dryRun, registry).registry == registry + Landed(ds, upload, dryRun)
    ensures Publish(ds, upload, dryRun, registry).failed == 0
            <==> forall d :: d in ds && d.publish ==> upload(d.entry).Accepted?
  {
    if ds != [] {
      RunEffect(ds[..|ds| - 1], upload, dryRun, registry);
      assert ds == ds[..|ds| - 1] + [ds[|ds| - 1]];
    }
  }

  /** Each attempt answers one publish decision and sees what the earlier ones landed. */
  lemma {:induction false} AttemptSource(ds: seq<Decision>, upload: Entry -> Upload, dryRun: bool, registry: set<Entry>,
                                         a: Attempt)
    returns (i: nat)
    requires a in Publish(ds, upload, dryRun, registry).attempts
    ensures i < |ds| && ds[i].publish
    ensures a == Attempt(ds[i].entry, upload(ds[i].entry).Accepted?, registry + Landed(ds[..i], upload, dryRun))
  {
    var front, last := ds[..|ds| - 1], ds[|ds| - 1];
    if a in Publish(front, upload, dryRun, registry).attempts {
      i := AttemptSource(front, upload, dryRun, registry, a);
      assert ds[..i] == front[..i];
    } else {
      i := |ds| - 1;
      RunEffect(front, upload, dryRun, registry);
    }
  }

  /** Conversely every publish decision is attempted. */
  lemma {:induction false} DecisionAttempted(ds: seq<Decision>, upload: Entry -> Upload, dryRun: bool,
                                             registry: set<Entry>, i: nat)
    requires i < |ds| && ds[i].publish
    ensures Attempt(ds[i].entry, upload(ds[i].entry).Accepted?, registry + Landed(ds[..i], upload, dryRun))
            in Publish(ds, upload, dryRun, registry).attempts
  {
    var front := ds[..|ds| - 1];
    if i < |front| {
      DecisionAttempted(front, upload, dryRun, registry, i);
      assert ds[..i] == front[..i];
    } else {
      RunEffect(front, upload, dryRun, registry);
    }
  }

  /** The exact versions that the packed manifest of `e` pins inside the npm set. */
  ghost function Needs(inSet: map<string, Package>, known: map<string, Package>, e: Entry): set<Entry> {
    if e.name in inSet then
      set d | d in inSet && (d in inSet[e.name].dependencies || d in inSet[e.name].optionalDependencies) ::
        Entry(d, if d in known then known[d].version else "")
    else {}
  }

  /** Within the plan, what an entry needs comes before it. */
  ghost predicate PlanOrdered(inSet: map<string, Package>, known: map<string, Package>, plan: seq<Entry>) {
    forall i, n :: 0 <= i < |plan| && n in Needs(inSet, known, plan[i]) && n in plan ==> n in plan[..i]
  }

  lemma {:induction false} PlanMembers(known: map<string, Package>, order: seq<Package>, wanted: set<string>, e: Entry)
    ensures e in PlanOf(known, order, wanted)
            <==> e.name in Names(order) && e.name in wanted && e == EntryOf(known, e.name)
  {
    if order != [] {
      var front, last := order[..|order| - 1], order[|order| - 1];
      PlanMembers(known, front, wanted, e);
      NamesSplit(order);
    }
  }

  lemma NamesSplit(order: seq<Package>)
    requires order != []
    ensures Names(order) == Names(order[..|order| - 1]) + {order[|order| - 1].name}
    ensures DistinctNames(order) ==> order[|order| - 1].name !in Names(order[..|order| - 1])
  {
    assert order == order[..|order| - 1] + [order[|order| - 1]];
  }

  lemma {:induction false} PlanLength(known: map<string, Package>, order: seq<Package>, wanted: set<string>)
    requires DistinctNames(order)
    ensures |PlanOf(known, order, wanted)| == |Names(order) * wanted|
  {
    if order != [] {
      var front, last := order[..|order| - 1], order[|order| - 1];
      PlanLength(known, front, wanted);
      NamesSplit(order);
      CountOneMore(Names(front), last.name, wanted);
    }
  }

  lemma CountOneMore(names: set<string>, n: string, wanted: set<string>)
    requires n !in names
    ensures |(names + {n}) * wanted| == |names * wanted| + if n in wanted then 1 else 0
  {
    if n in wanted {
      assert (names + {n}) * wanted == names * wanted + {n};
    } else {
      assert (names + {n}) * wanted == names * wanted;
    }
  }

  /** The plan inherits the order of the package list. */
  lemma {:induction false} PlanIsOrdered(inSet: map<string, Package>, known: map<string, Package>,
                                         order: seq<Package>, wanted: set<string>)
    requires DistinctNames(order) && DependenciesFirst(RequiredAndOptional, inSet, order)
    requires forall p :: p in order ==> p.name in inSet && inSet[p.name] == p
    ensures PlanOrdered(inSet, known, PlanOf(known, order, wanted))
  {
    if order != [] {
      var front, last := order[..|order| - 1], order[|order| - 1];
      var plan, shorter := PlanOf(known, order, wanted), PlanOf(known, front, wanted);
      assert forall k :: 0 <= k < |front| ==> front[..k] == order[..k];
      PlanIsOrdered(inSet, known, front, wanted);
      forall i, n | 0 <= i < |plan| && n in Needs(inSet, known, plan[i]) && n in plan
        ensures n in plan[..i]
      {
        PlanMembers(known, order, wanted, plan[i]);
        NeedIsEarlier(inSet, order, plan[i].name, n.name);
        PlanMembers(known, order, wanted, n);
        PlanMembers(known, front, wanted, n);
        assert plan[..i] == if i < |shorter| then shorter[..i] else shorter;
      }
    }
  }

  /** What a placed package needs is never the last package of the order. */
  lemma NeedIsEarlier(inSet: map<string, Package>, order: seq<Package>, name: string, d: string)
    requires order != [] && DistinctNames(order) && DependenciesFirst(RequiredAndOptional, inSet, order)
    requires forall p :: p in order ==> p.name in inSet && inSet[p.name] == p
    requires name in Names(order) && d in inSet && (d in inSet[name].dependencies || d in inSet[name].optionalDependencies)
    ensures d in Names(order[..|order| - 1]) && d != order[|order| - 1].name
  {
    var k :| 0 <= k < |order| && order[k].name == name;
    EdgesAreFields(order[k], d);
    assert d in Names(order[..k]);
    var j :| 0 <= j < k && order[j].name == d;
    assert order[j] in order[..|order| - 1];
  }

  /** No served version pins a version that the registry does not hold. */
  ghost predicate Consistent(inSet: map<string, Package>, known: map<string, Package>, plan: seq<Entry>,
                             registry: set<Entry>)
  {
    forall e :: e in plan && e in registry ==> Needs(inSet, known, e) <= registry
  }

  /** Every landed entry finds all it needs among the old registry and the landed entries. */
  ghost predicate LandingsClosed(inSet: map<string, Package>, known: map<string, Package>, registry: set<Entry>,
                                 landed: set<Entry>)
  {
    forall e :: e in landed ==> Needs(inSet, known, e) <= registry + landed
  }

  /** At the moment of each landing upload the registry already holds what that entry needs. */
  ghost predicate UploadsSafe(inSet: map<string, Package>, known: map<string, Package>, upload: Entry -> Upload,
                              dryRun: bool, attempts: seq<Attempt>)
  {
    forall a :: a in attempts && Lands(dryRun, upload(a.entry)) ==> Needs(inSet, known, a.entry) <= a.before
  }

  /**
    * The loop does not stop at a failed upload, so it is not always safe. It is safe exactly when
    * the landed set as a whole is closed: the plan order turns that set condition into safety at
    * every single upload.
    */
  lemma SafeExactlyWhenLandingsClosed(inSet: map<string, Package>, known: map<string, Package>, plan: seq<Entry>,
                                      probe: Entry -> Probe, upload: Entry -> Upload, dryRun: bool,
                                      registry: set<Entry>)
    requires PlanOrdered(inSet, known, plan)
    ensures var ds := DecidePublishes(plan, probe);
            UploadsSafe(inSet, known, upload, dryRun, Publish(ds, upload, dryRun, registry).attempts)
            <==> LandingsClosed(inSet, known, registry, Landed(ds, upload, dryRun))
  {
    if UploadsSafe(inSet, known, upload, dryRun, Publish(DecidePublishes(plan, probe), upload, dryRun, registry).attempts) {
      SafeRunLandsClosed(inSet, known, DecidePublishes(plan, probe), upload, dryRun, registry);
    }
    if LandingsClosed(inSet, known, registry, Landed(DecidePublishes(plan, probe), upload, dryRun)) {
      ClosedLandingsAreSafe(inSet, known, plan, probe, upload, dryRun, registry);
    }
  }

  lemma SafeRunLandsClosed(inSet: map<string, Package>, known: map<string, Package>, ds: seq<Decision>, upload: Entry -> Upload,
                           dryRun: bool, registry: set<Entry>)
    requires UploadsSafe(inSet, known, upload, dryRun, Publish(ds, upload, dryRun, registry).attempts)
    ensures LandingsClosed(inSet, known, registry, Landed(ds, upload, dryRun))
  {
    var landed := Landed(ds, upload, dryRun);
    forall e | e in landed
      ensures Needs(inSet, known, e) <= registry + landed
    {
      var d :| d in ds && d.publish && Lands(dryRun, upload(d.entry)) && d.entry == e;
      var i :| 0 <= i < |ds| && ds[i] == d;
      DecisionAttempted(ds, upload, dryRun, registry, i);
      assert Landed(ds[..i], upload, dryRun) <= landed;
    }
  }

  lemma ClosedLandingsAreSafe(inSet: map<string, Package>, known: map<string, Package>, plan: seq<Entry>, probe: Entry -> Probe,
                              upload: Entry -> Upload, dryRun: bool, registry: set<Entry>)
    requires PlanOrdered(inSet, known, plan)
    requires LandingsClosed(inSet, known, registry, Landed(DecidePublishes(plan, probe), upload, dryRun))
    ensures UploadsSafe(inSet, known, upload, dryRun, Publish(DecidePublishes(plan, probe), upload, dryRun, registry).attempts)
  {
    var ds := DecidePublishes(plan, probe);
    forall a | a in Publish(ds, upload, dryRun, registry).attempts && Lands(dryRun, upload(a.entry))
      ensures Needs(inSet, known, a.entry) <= a.before
    {
      var i := AttemptSource(ds, upload, dryRun, registry, a);
      assert ds[i] in ds && a.entry in Landed(ds, upload, dryRun);
      LandedEarlier(inSet, known, plan, probe, upload, dryRun, i);
    }
  }

  /**
    * Before a run nobody knows which uploads will fail. Whatever they do, no upload leaves a dependency
    * behind, if and only if everything that the entries to be published need is on the registry already.
    */
  lemma {:induction false} SafeWhateverFails(inSet: map<string, Package>, known: map<string, Package>, plan: seq<Entry>,
                                             probe: Entry -> Probe, registry: set<Entry>)
    requires forall e :: e in plan ==> e !in Needs(inSet, known, e)
    ensures (forall upload: Entry -> Upload ::
               UploadsSafe(inSet, known, upload, false, Publish(DecidePublishes(plan, probe), upload, false, registry).attempts))
            <==> (forall e :: e in plan && !probe(e).Exists? ==> Needs(inSet, known, e) <= registry)
  {
    var ds := DecidePublishes(plan, probe);
    if forall e :: e in plan && !probe(e).Exists? ==> Needs(inSet, known, e) <= registry {
      forall upload: Entry -> Upload
        ensures UploadsSafe(inSet, known, upload, false, Publish(ds, upload, false, registry).attempts)
      {
        SafeFromTheStart(inSet, known, plan, probe, upload, registry);
      }
    } else {
      var e :| e in plan && !probe(e).Exists? && !(Needs(inSet, known, e) <= registry);
      var i :| 0 <= i < |plan| && plan[i] == e;
      OneLandsAlone(inSet, known, plan, probe, registry, i);
      assert !UploadsSafe(inSet, known, OnlyAccepts(e), false, Publish(ds, OnlyAccepts(e), false, registry).attempts);
    }
  }

  lemma SafeFromTheStart(inSet: map<string, Package>, known: map<string, Package>, plan: seq<Entry>, probe: Entry -> Probe,
                         upload: Entry -> Upload, registry: set<Entry>)
    requires forall e :: e in plan && !probe(e).Exists? ==> Needs(inSet, known, e) <= registry
    ensures UploadsSafe(inSet, known, upload, false, Publish(DecidePublishes(plan, probe), upload, false, registry).attempts)
  {
    var ds := DecidePublishes(plan, probe);
    forall a | a in Publish(ds, upload, false, registry).attempts
      ensures Needs(inSet, known, a.entry) <= a.before
    {
      var i := AttemptSource(ds, upload, false, registry, a);
      assert plan[i] in plan;
    }
  }

  /** A registry that takes one entry and refuses all others. */
  ghost function OnlyAccepts(e: Entry): Entry -> Upload {
    x => if x == e then Accepted else Failed(false)
  }

  lemma OneLandsAlone(inSet: map<string, Package>, known: map<string, Package>, plan: seq<Entry>, probe: Entry -> Probe,
                      registry: set<Entry>, i: nat)
    requires i < |plan| && !probe(plan[i]).Exists? && plan[i] !in Needs(inSet, known, plan[i])
    requires !(Needs(inSet, known, plan[i]) <= registry)
    ensures var upload := OnlyAccepts(plan[i]);
            !UploadsSafe(inSet, known, upload, false, Publish(DecidePublishes(plan, probe), upload, false, registry).attempts)
  {
    var ds, upload := DecidePublishes(plan, probe), OnlyAccepts(plan[i]);
    DecisionAttempted(ds, upload, false, registry, i);
    assert Landed(ds[..i], upload, false) <= {plan[i]};
  }

  /** What plan entry `i` needs and the run lands is landed before decision `i`. */
  lemma LandedEarlier(inSet: map<string, Package>, known: map<string, Package>, plan: seq<Entry>,
                      probe: Entry -> Probe, upload: Entry -> Upload, dryRun: bool, i: nat)
    requires PlanOrdered(inSet, known, plan) && i < |plan|
    ensures var ds := DecidePublishes(plan, probe);
            Needs(inSet, known, plan[i]) * Landed(ds, upload, dryRun) <= Landed(ds[..i], upload, dryRun)
  {
    var ds := DecidePublishes(plan, probe);
    forall n | n in Needs(inSet, known, plan[i]) && n in Landed(ds, upload, dryRun)
      ensures n in Landed(ds[..i], upload, dryRun)
    {
      var d :| d in ds && d.publish && Lands(dryRun, upload(d.entry)) && d.entry == n;
      assert n in plan && n in plan[..i];
      var j :| 0 <= j < i && plan[j] == n;
      assert ds[j] in ds[..i] && ds[j].entry == n;
    }
  }

  /** A concrete failure: the dependency's upload fails, its dependent's lands, and a pinned version is missing. */
  lemma FailedDependencyIsServedDangling()
    returns (inSet: map<string, Package>, plan: seq<Entry>, probe: Entry -> Probe, upload: Entry -> Upload)
    ensures PlanOrdered(inSet, inSet, plan)
    ensures forall e :: e in plan ==> forall n :: n in Needs(inSet, inSet, e) ==> n in plan
    ensures !UploadsSafe(inSet, inSet, upload, false, Publish(DecidePublishes(plan, probe), upload, false, {}).attempts)
  {
    var catalog := Package("catalog", "1", true, false, [], []);
    var wrapper := Package("wrapper", "1", true, false, ["catalog"], []);
    inSet := map["catalog" := catalog, "wrapper" := wrapper];
    var c, w := Entry("catalog", "1"), Entry("wrapper", "1");
    plan := [c, w];
    probe := e => Absent;
    upload := (e: Entry) => if e == c then Failed(false) else Accepted;
    assert "catalog"[0] != "wrapper"[0];
    assert Edges(RequiredAndOptional, inSet[c.name]) == [] && Edges(RequiredAndOptional, inSet[w.name]) == ["catalog"];
    assert Inside(inSet, ["catalog"]) == {"catalog"} && Inside(inSet, []) == {};
    assert Needs(inSet, inSet, w) == {c} && Needs(inSet, inSet, c) == {};
    assert plan[..1] == [c];
    var ds := DecidePublishes(plan, probe);
    assert ds[1] in ds && ds[1].entry == w;
    assert w in Landed(ds, upload, false) && c !in Landed(ds, upload, false);
    SafeExactlyWhenLandingsClosed(inSet, inSet, plan, probe, upload, false, {});
  }

  /** When every attempt is accepted, what the run does not find it lands. */
  lemma AcceptedRunCompletes(inSet: map<string, Package>, known: map<string, Package>, plan: seq<Entry>,
                             probe: Entry -> Probe, upload: Entry -> Upload, registry: set<Entry>)
    requires PlanOrdered(inSet, known, plan)
    requires forall e :: e in plan ==> forall n :: n in Needs(inSet, known, e) ==> n in plan
    requires forall e :: probe(e).Exists? ==> e in registry
    requires forall e :: e in plan && !probe(e).Exists? ==> upload(e).Accepted?
    ensures var run := Publish(DecidePublishes(plan, probe), upload, false, registry);
            && UploadsSafe(inSet, known, upload, false, run.attempts)
            && (forall e :: e in plan ==> e in run.registry)
            && Consistent(inSet, known, plan, run.registry)
            && run.failed == 0
  {
    var ds := DecidePublishes(plan, probe);
    var landed := Landed(ds, upload, false);
    RunEffect(ds, upload, false, registry);
    forall e | e in plan
      ensures e in registry + landed
    {
      var i :| 0 <= i < |plan| && plan[i] == e;
      assert ds[i] in ds && ds[i].entry == e;
    }
    assert LandingsClosed(inSet, known, registry, landed);
    SafeExactlyWhenLandingsClosed(inSet, known, plan, probe, upload, false, registry);
  }

  /** One drive of the release workflow at a fixed tag: its probe answers and its upload results. */
  datatype Drive = Drive(probe: Entry -> Probe, upload: Entry -> Upload, dryRun: bool)

  ghost function Redrive(plan: seq<Entry>, drives: seq<Drive>, registry: set<Entry>): set<Entry> {
    if drives == [] then registry
    else
      var d := drives[0];
      Redrive(plan, drives[1..], Publish(DecidePublishes(plan, d.probe), d.upload, d.dryRun, registry).registry)
  }

  /** Every drive lands a closed set, judged against the registry it starts from. */
  ghost predicate DrivesClosed(inSet: map<string, Package>, known: map<string, Package>, plan: seq<Entry>,
                               drives: seq<Drive>, registry: set<Entry>)
  {
    drives == [] ||
    var d := drives[0];
    var ds := DecidePublishes(plan, d.probe);
    && LandingsClosed(inSet, known, registry, Landed(ds, d.upload, d.dryRun))
    && DrivesClosed(inSet, known, plan, drives[1..], Publish(ds, d.upload, d.dryRun, registry).registry)
  }

  /** Nothing is ever withdrawn, and a consistent registry stays consistent over any run of closed drives. */
  lemma {:induction false} RedriveStaysConsistent(inSet: map<string, Package>, known: map<string, Package>,
                                                  plan: seq<Entry>, drives: seq<Drive>, registry: set<Entry>)
    ensures registry <= Redrive(plan, drives, registry)
    ensures DrivesClosed(inSet, known, plan, drives, registry) && Consistent(inSet, known, plan, registry)
            ==> Consistent(inSet, known, plan, Redrive(plan, drives, registry))
  {
    if drives != [] {
      var d := drives[0];
      var ds := DecidePublishes(plan, d.probe);
      RunEffect(ds, d.upload, d.dryRun, registry);
      RedriveStaysConsistent(inSet, known, plan, drives[1..], Publish(ds, d.upload, d.dryRun, registry).registry);
    }
  }

  /** After any earlier drives, however they failed, one truthful and fully accepted drive completes the release. */
  lemma RedriveCompletes(inSet: map<string, Package>, known: map<string, Package>, plan: seq<Entry>,
                         earlier: seq<Drive>, registry: set<Entry>, last: Drive)
    requires PlanOrdered(inSet, known, plan)
    requires forall e :: e in plan ==> forall n :: n in Needs(inSet, known, e) ==> n in plan
    requires !last.dryRun
    requires forall e :: last.probe(e).Exists? ==> e in Redrive(plan, earlier, registry)
    requires forall e :: e in plan && !last.probe(e).Exists? ==> last.upload(e).Accepted?
    ensures var end := Redrive(plan, earlier + [last], registry);
            && registry <= end
            && (forall e :: e in plan ==> e in end)
            && Consistent(inSet, known, plan, end)
  {
    RedriveAppend(plan, earlier, last, registry);
    AcceptedRunCompletes(inSet, known, plan, last.probe, last.upload, Redrive(plan, earlier, registry));
    RedriveStaysConsistent(inSet, known, plan, earlier + [last], registry);
  }

  lemma {:induction false} RedriveAppend(plan: seq<Entry>, earlier: seq<Drive>, last: Drive, registry: set<Entry>)
    ensures Redrive(plan, earlier + [last], registry)
            == Publish(DecidePublishes(plan, last.probe), last.upload, last.dryRun, Redrive(plan, earlier, registry)).registry
  {
    if earlier == [] {
      assert Redrive(plan, [last][1..], Redrive(plan, [last], registry)) == Redrive(plan, [last], registry);
      assert (earlier + [last])[1..] == [];
    } else {
      var d := earlier[0];
      assert (earlier + [last])[1..] == earlier[1..] + [last];
      RedriveAppend(plan, earlier[1..], last, Publish(DecidePublishes(plan, d.probe), d.upload, d.dryRun, registry).registry);
    }
  }

  /** The entries tried. */
  ghost function Attempted(attempts: seq<Attempt>): set<Entry> {
    set a | a in attempts :: a.entry
  }

  /** The requested versions that the probe does not find. */
  ghost function Missing(known: map<string, Package>, wanted: set<string>, probe: Entry -> Probe): set<Entry>
    requires wanted <= known.Keys
  {
    set n | n in wanted && !probe(Entry(n, known[n].version)).Exists? :: Entry(n, known[n].version)
  }

  /** No name is tried twice, and whatever a package lists in either field is tried before it. */
  ghost predicate NeededFirst(inSet: map<string, Package>, attempts: seq<Attempt>) {
    && (forall i, j :: 0 <= i < j < |attempts| ==> attempts[i].entry.name != attempts[j].entry.name)
    && forall i, j | 0 <= i < |attempts| && 0 <= j < |attempts| && attempts[i].entry.name in inSet ::
         var p := inSet[attempts[i].entry.name];
         attempts[j].entry.name in p.dependencies || attempts[j].entry.name in p.optionalDependencies ==> j < i
  }

  ghost function AttemptsFor(known: map<string, Package>, order: seq<Package>, wanted: set<string>, probe: Entry -> Probe,
                             upload: Entry -> Upload, dryRun: bool, registry: set<Entry>): seq<Attempt>
  {
    Publish(DecidePublishes(PlanOf(known, order, wanted), probe), upload, dryRun, registry).attempts
  }

  /** One more package in the order makes at most one more attempt, for itself. */
  lemma AttemptsGrow(known: map<string, Package>, order: seq<Package>, wanted: set<string>, probe: Entry -> Probe,
                     upload: Entry -> Upload, dryRun: bool, registry: set<Entry>)
    requires order != []
    ensures var less := AttemptsFor(known, order[..|order| - 1], wanted, probe, upload, dryRun, registry);
            var more := AttemptsFor(known, order, wanted, probe, upload, dryRun, registry);
            more == less || (|more| == |less| + 1 && more[..|less|] == less && more[|less|].entry.name == order[|order| - 1].name)
  {
    var front, last := order[..|order| - 1], order[|order| - 1];
    if last.name in wanted {
      var ds, less := DecidePublishes(PlanOf(known, order, wanted), probe), DecidePublishes(PlanOf(known, front, wanted), probe);
      assert ds[..|ds| - 1] == less;
    } else {
      assert PlanOf(known, front, wanted) + [] == PlanOf(known, front, wanted);
    }
  }

  /** The attempts' names stand at the places `at` of the order. */
  ghost predicate StandAt(order: seq<Package>, attempts: seq<Attempt>, at: seq<nat>) {
    && |at| == |attempts| && (forall i, j :: 0 <= i < j < |at| ==> at[i] < at[j])
    && forall i :: 0 <= i < |at| ==> at[i] < |order| && order[at[i]].name == attempts[i].entry.name
  }

  lemma StandMore(order: seq<Package>, less: seq<Attempt>, more: seq<Attempt>, at: seq<nat>) returns (places: seq<nat>)
    requires order != [] && StandAt(order[..|order| - 1], less, at)
    requires more == less || (|more| == |less| + 1 && more[..|less|] == less && more[|less|].entry.name == order[|order| - 1].name)
    ensures StandAt(order, more, places)
  {
    if more == less {
      places := at;
    } else {
      places := at + [|order| - 1];
      forall i | 0 <= i < |places|
        ensures places[i] < |order| && order[places[i]].name == more[i].entry.name && (i < |at| ==> places[i] < |order| - 1)
      {
        assert i < |at| ==> places[i] == at[i] && more[i] == less[i] && order[at[i]] == order[..|order| - 1][at[i]];
      }
    }
  }

  /** Where in the publish order each attempt comes from. */
  lemma {:induction false} AttemptPlaces(known: map<string, Package>, order: seq<Package>, wanted: set<string>, probe: Entry -> Probe,
                                         upload: Entry -> Upload, dryRun: bool, registry: set<Entry>)
    returns (at: seq<nat>)
    ensures StandAt(order, AttemptsFor(known, order, wanted, probe, upload, dryRun, registry), at)
    decreases |order|
  {
    if order == [] {
      at := [];
    } else {
      var front := order[..|order| - 1];
      at := AttemptPlaces(known, front, wanted, probe, upload, dryRun, registry);
      AttemptsGrow(known, order, wanted, probe, upload, dryRun, registry);
      at := StandMore(order, AttemptsFor(known, front, wanted, probe, upload, dryRun, registry),
                      AttemptsFor(known, order, wanted, probe, upload, dryRun, registry), at);
    }
  }

  lemma AttemptsInOrder(inSet: map<string, Package>, known: map<string, Package>, order: seq<Package>, wanted: set<string>,
                        probe: Entry -> Probe, upload: Entry -> Upload, dryRun: bool, registry: set<Entry>)
    requires DistinctNames(order) && FieldsFirst(order) && forall p :: p in order ==> p.name in inSet && inSet[p.name] == p
    ensures NeededFirst(inSet, Publish(DecidePublishes(PlanOf(known, order, wanted), probe), upload, dryRun, registry).attempts)
  {
    var at := AttemptPlaces(known, order, wanted, probe, upload, dryRun, registry);
    var attempts := Publish(DecidePublishes(PlanOf(known, order, wanted), probe), upload, dryRun, registry).attempts;
    forall i | 0 <= i < |attempts|
      ensures inSet[attempts[i].entry.name] == order[at[i]]
    {
      assert order[at[i]] in order;
    }
  }

  /** Why a run ends before its first upload. */
  datatype Refusal = ScanViolations | NotPublishable | Cycle(through: string) | Incomplete(planned: nat, requested: nat)

  /**
    * The main block. A refused run uploads nothing. A run that is not refused covers exactly the
    * requested names, tries only versions not known to be there, and ends cleanly exactly when no
    * attempt failed. If the request is closed under in-set dependencies, the probe is truthful and
    * every upload is accepted, then each upload finds its dependencies on the registry and the run
    * ends with the whole request there.
    */
  method PublishNpmSet(workspace: seq<Package>, wanted: set<string>, packed: set<string>, scanClean: bool,
                       probe: Entry -> Probe, upload: Entry -> Upload, dryRun: bool, registry: set<Entry>)
    returns (r: Result<Run, Refusal>)
    ensures var inSet := ByName(NpmSet(workspace));
            r.Err? <==> !scanClean || !(wanted <= Names(workspace)) || HasRing(inSet.Values)
                        || !(wanted <= inSet.Keys * packed)
    ensures r.Ok? ==> wanted <= ByName(workspace).Keys
    ensures r.Ok? ==> Attempted(r.value.attempts) == Missing(ByName(workspace), wanted, probe)
    ensures r.Ok? ==> NeededFirst(ByName(NpmSet(workspace)), r.value.attempts)
    ensures r.Ok? ==> forall a :: a in r.value.attempts ==> (a.ok <==> upload(a.entry).Accepted?)
    ensures r.Ok? ==> (r.value.failed == 0 <==> forall a :: a in r.value.attempts ==> a.ok)
    ensures r.Ok? && dryRun ==> r.value.registry == registry
    ensures r.Ok? && !dryRun ==>
              r.value.registry == registry + set a | a in r.value.attempts && upload(a.entry) != Failed(false) :: a.entry
    ensures var inSet, known := ByName(NpmSet(workspace)), ByName(workspace);
            && r.Ok? && !dryRun && r.value.failed == 0 && Truthful(probe, registry) && RequestClosed(inSet, wanted)
            ==> && (forall a :: a in r.value.attempts ==> Needs(inSet, known, a.entry) <= a.before)
                && (forall n :: n in wanted ==> Entry(n, known[n].version) in r.value.registry)
  {
    if !scanClean {
      return Err(ScanViolations);
    }
    var known, inSet := ByName(workspace), ByName(NpmSet(workspace));
    if !(wanted <= known.Keys) {
      return Err(NotPublishable);
    }
    var order := NpmPublishOrder(workspace);
    if order.Err? {
      return Err(Cycle(order.error));
    }
    var plan := PlanOf(known, order.value, wanted * packed);
    PlanLength(known, order.value, wanted * packed);
    PlanSize(inSet.Keys, wanted, packed);
    if |plan| != |wanted| {
      return Err(Incomplete(|plan|, |wanted|));
    }
    forall e ensures e in plan <==> e.name in wanted && e == EntryOf(known, e.name) {
      PlanMembers(known, order.value, wanted * packed, e);
    }
    var ds := DecidePublishes(plan, probe);
    var run := PublishLoop(ds, upload, dryRun, registry);
    RunFacts(plan, probe, upload, dryRun, registry);
    RegistryGains(ds, upload, dryRun, registry);
    PlanAttempted(known, plan, wanted, probe, upload, dryRun, registry);
    AttemptsInOrder(inSet, known, order.value, wanted * packed, probe, upload, dryRun, registry);
    if !dryRun && run.failed == 0 && Truthful(probe, registry) && RequestClosed(inSet, wanted) {
      PlanIsOrdered(inSet, known, order.value, wanted * packed);
      CleanRunDelivers(inSet, known, plan, wanted, probe, upload, registry);
    }
    return Ok(run);
  }

  lemma PlanAttempted(known: map<string, Package>, plan: seq<Entry>, wanted: set<string>, probe: Entry -> Probe,
                      upload: Entry -> Upload, dryRun: bool, registry: set<Entry>)
    requires wanted <= known.Keys && forall e :: e in plan <==> e.name in wanted && e == EntryOf(known, e.name)
    ensures Attempted(Publish(DecidePublishes(plan, probe), upload, dryRun, registry).attempts) == Missing(known, wanted, probe)
  {
    var ds := DecidePublishes(plan, probe);
    var attempts := Publish(ds, upload, dryRun, registry).attempts;
    forall e | e in Missing(known, wanted, probe)
      ensures e in Attempted(attempts)
    {
      assert e in plan;
      var i :| 0 <= i < |plan| && plan[i] == e;
      DecisionAttempted(ds, upload, dryRun, registry, i);
    }
    RunFacts(plan, probe, upload, dryRun, registry);
  }

  /** The probe never reports a version that is not there. */
  ghost predicate Truthful(probe: Entry -> Probe, registry: set<Entry>) {
    forall e :: probe(e).Exists? ==> e in registry
  }

  /** The requested names include every in-set dependency of a requested package. */
  ghost predicate RequestClosed(inSet: map<string, Package>, wanted: set<string>) {
    forall n, d :: n in wanted && n in inSet && d in inSet && (d in inSet[n].dependencies || d in inSet[n].optionalDependencies)
                   ==> d in wanted
  }

  lemma CleanRunDelivers(inSet: map<string, Package>, known: map<string, Package>, plan: seq<Entry>,
                         wanted: set<string>, probe: Entry -> Probe, upload: Entry -> Upload, registry: set<Entry>)
    requires PlanOrdered(inSet, known, plan) && RequestClosed(inSet, wanted) && Truthful(probe, registry)
    requires forall e :: e in plan <==> e.name in wanted && e == EntryOf(known, e.name)
    requires Publish(DecidePublishes(plan, probe), upload, false, registry).failed == 0
    ensures var run := Publish(DecidePublishes(plan, probe), upload, false, registry);
            && (forall a :: a in run.attempts ==> Needs(inSet, known, a.entry) <= a.before)
            && (forall n :: n in wanted ==> EntryOf(known, n) in run.registry)
  {
    var ds := DecidePublishes(plan, probe);
    RunEffect(ds, upload, false, registry);
    forall e | e in plan && !probe(e).Exists?
      ensures upload(e).Accepted?
    {
      var i :| 0 <= i < |plan| && plan[i] == e;
      assert ds[i] in ds;
    }
    AcceptedRunCompletes(inSet, known, plan, probe, upload, registry);
    RunFacts(plan, probe, upload, false, registry);
    assert forall n :: n in wanted ==> EntryOf(known, n) in plan;
  }

  lemma PlanSize(keys: set<string>, wanted: set<string>, packed: set<string>)
    ensures |keys * (wanted * packed)| == |wanted| <==> wanted <= keys * packed
  {
    var planned := keys * (wanted * packed);
    if planned != wanted {
      assert planned < wanted;
      assert |wanted - planned| == |wanted| - |planned|;
    }
  }

  /** What holds of a run on any inputs. */
  lemma RunFacts(plan: seq<Entry>, probe: Entry -> Probe, upload: Entry -> Upload, dryRun: bool, registry: set<Entry>)
    ensures var run := Publish(DecidePublishes(plan, probe), upload, dryRun, registry);
            && (forall a :: a in run.attempts ==> a.entry in plan && !probe(a.entry).Exists? && (a.ok <==> upload(a.entry).Accepted?))
            && (run.failed == 0 <==> forall a :: a in run.attempts ==> a.ok)
  {
    var ds := DecidePublishes(plan, probe);
    var run := Publish(ds, upload, dryRun, registry);
    RunEffect(ds, upload, dryRun, registry);
    forall a | a in run.attempts
      ensures a.entry in plan && !probe(a.entry).Exists? && (a.ok <==> upload(a.entry).Accepted?) && (run.failed == 0 ==> a.ok)
    {
      var i := AttemptSource(ds, upload, dryRun, registry, a);
      assert ds[i] in ds;
    }
    if run.failed != 0 {
      var d :| d in ds && d.publish && !upload(d.entry).Accepted?;
      var i :| 0 <= i < |ds| && ds[i] == d;
      DecisionAttempted(ds, upload, dryRun, registry, i);
    }
  }

  lemma RegistryGains(ds: seq<Decision>, upload: Entry -> Upload, dryRun: bool, registry: set<Entry>)
    ensures var run := Publish(ds, upload, dryRun, registry);
            && (dryRun ==> run.registry == registry)
            && (!dryRun ==> run.registry == registry + set a | a in run.attempts && upload(a.entry) != Failed(false) :: a.entry)
  {
    RunEffect(ds, upload, dryRun, registry);
    LandedAreAttempts(ds, upload, dryRun, registry);
  }

  /** In a dry run nothing lands; otherwise every attempt does but those whose failure reached nothing. */
  lemma LandedAreAttempts(ds: seq<Decision>, upload: Entry -> Upload, dryRun: bool, registry: set<Entry>)
    ensures var attempts := Publish(ds, upload, dryRun, registry).attempts;
            Landed(ds, upload, dryRun)
            == if dryRun then {} else set a | a in attempts && upload(a.entry) != Failed(false) :: a.entry
  {
    var attempts := Publish(ds, upload, dryRun, registry).attempts;
    forall d | d in ds && d.publish
      ensures exists a :: a in attempts && a.entry == d.entry
    {
      var i :| 0 <= i < |ds| && ds[i] == d;
      DecisionAttempted(ds, upload, dryRun, registry, i);
    }
    forall a | a in attempts
      ensures exists d :: d in ds && d.publish && d.entry == a.entry
    {
      var i := AttemptSource(ds, upload, dryRun, registry, a);
      assert ds[i] in ds;
    }
  }

  /**
    * The gate that the flagged set equals the closure makes the npm set self-contained: once its
    * versions are on the registry, no manifest there pins a workspace version that is missing.
    */
  lemma {:induction false} GatedSetLeavesNothingDangling(workspace: seq<Package>, registry: set<Entry>)
    requires DistinctNames(workspace)
    requires Names(NpmSet(workspace)) == ExpectedSet(workspace)
    requires forall p :: p in NpmSet(workspace) ==> Entry(p.name, p.version) in registry
    ensures forall p, q :: p in NpmSet(workspace) && q in workspace && (q.name in p.dependencies || q.name in p.optionalDependencies)
                           ==> Entry(q.name, q.version) in registry
  {
    var known, npm := ByName(workspace), NpmSet(workspace);
    ClosureIsClosed(known, Roots(workspace));
    forall p, q | p in npm && q in workspace && (q.name in p.dependencies || q.name in p.optionalDependencies)
      ensures Entry(q.name, q.version) in registry
    {
      assert p.name in Names(npm) && known[p.name] == p && known[q.name] == q;
      assert q.name in ExpectedSet(workspace);
    }
  }
}
