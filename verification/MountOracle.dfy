/** `MountIsolationOracle`: a one-way check of the outer and the runtime mount tables around one run. */
module MountOracle {
  import opened Outcome

  datatype Code = MountinfoLimit | MountinfoInvalid | OuterNamespaceChanged | OuterMountsChanged | RuntimeDead
                | RuntimePidChanged | RuntimeNamespaceChanged | RuntimeMountsMissing | RuntimeMountFlags
                | RuntimePropagation | ProcReadFailed | OraclePhase | OracleDeadline

  /** One mount record; `exact` keeps all fields of its line, so no two records of a table share it. */
  datatype Mount = Mount(point: string, options: set<string>, optional: seq<string>, exact: seq<string>)

  type Namespace = (int, int)

  /** One read of a process's mount table, or the way the read failed. */
  datatype View = View(namespace: Namespace, records: set<Mount>)
  type Reading = Result<View, Code>

  /** `s.rstrip('/')`. */
  function RStrip(s: string): string {
    if s != "" && s[|s| - 1] == '/' then RStrip(s[..|s| - 1]) else s
  }

  predicate Covers(directory: string, point: string) {
    point == "/" || directory == point || RStrip(point) + "/" <= directory
  }

  /** A mount the outer check looks at: it covers the directory, or lies at or below it. */
  predicate Relevant(directory: string, m: Mount) {
    Covers(directory, m.point) || m.point == directory || RStrip(directory) + "/" <= m.point
  }

  // What covering means for paths, component by component.

  ghost predicate ProperParts(parts: seq<string>) {
    forall i :: 0 <= i < |parts| ==> parts[i] != "" && '/' !in parts[i]
  }

  /** A slash before each component. */
  ghost function Climb(parts: seq<string>): string {
    if parts == [] then "" else "/" + parts[0] + Climb(parts[1..])
  }

  ghost function PathText(parts: seq<string>): string {
    if parts == [] then "/" else Climb(parts)
  }

  /** A component followed by a slash or nothing is read off in only one way. */
  lemma {:induction false} PartsMatch(a: string, x: string, b: string, y: string)
    requires '/' !in a && '/' !in b && x != "" && x[0] == '/' && (y == "" || y[0] == '/')
    ensures a + x <= b + y <==> a == b && x <= y
  {
    if a != "" && b != "" {
      PartsMatch(a[1..], x, b[1..], y);
      HeadsCut(a, x, b, y);
    } else {
      assert a != "" ==> a[0] in a;
      assert b != "" ==> b[0] in b;
      assert a + x <= b + y ==> (a + x)[0] == (b + y)[0];
      assert a == "" ==> a + x == x;
      assert b == "" ==> b + y == y;
    }
  }

  lemma HeadsCut(a: string, x: string, b: string, y: string)
    requires a != "" && b != ""
    ensures a + x <= b + y <==> a[0] == b[0] && a[1..] + x <= b[1..] + y
    ensures a == b <==> a[0] == b[0] && a[1..] == b[1..]
  {
    HeadCut(a[0], a[1..] + x, b[0], b[1..] + y);
    assert a + x == [a[0]] + (a[1..] + x) && b + y == [b[0]] + (b[1..] + y);
    assert a == [a[0]] + a[1..] && b == [b[0]] + b[1..];
  }

  lemma HeadCut(c: char, u: string, e: char, v: string)
    ensures [c] + u <= [e] + v <==> c == e && u <= v
  {
    if [c] + u <= [e] + v {
      assert ([c] + u)[0] == ([e] + v)[0];
      assert u == ([c] + u)[1..] && v == ([e] + v)[1..];
      assert ([e] + v)[..|u| + 1] == [c] + u;
      assert v[..|u|] == ([e] + v)[1..|u| + 1] == u;
    }
  }

  /** A component with its slash is read off in only one way too. */
  lemma StepsMatch(a: string, x: string, b: string, y: string)
    requires '/' !in a && '/' !in b && x != "" && x[0] == '/' && (y == "" || y[0] == '/')
    ensures "/" + a + x <= "/" + b + y <==> a == b && x <= y
  {
    PartsMatch(a, x, b, y);
    HeadCut('/', a + x, '/', b + y);
    assert "/" + a + x == "/" + (a + x) && "/" + b + y == "/" + (b + y);
  }

  lemma {:induction false} BelowMeans(p: seq<string>, d: seq<string>)
    requires ProperParts(p) && ProperParts(d)
    ensures Climb(p) + "/" <= Climb(d) <==> p < d
  {
    ClimbStart(p);
    ClimbStart(d);
    if p != [] && d != [] {
      var x, y := Climb(p[1..]) + "/", Climb(d[1..]);
      BelowMeans(p[1..], d[1..]);
      ClimbStart(p[1..]);
      ClimbStart(d[1..]);
      StepsMatch(p[0], x, d[0], y);
      assert Climb(p) + "/" == "/" + p[0] + x;
      PartsCut(p, d);
    }
  }

  lemma ClimbStart(p: seq<string>)
    ensures p == [] <==> Climb(p) == ""
    ensures p != [] ==> Climb(p)[0] == '/'
    ensures (Climb(p) + "/")[0] == '/'
  {
  }

  lemma PartsCut(p: seq<string>, d: seq<string>)
    requires p != [] && d != []
    ensures p < d <==> p[0] == d[0] && p[1..] < d[1..]
  {
    assert p == [p[0]] + p[1..] && d == [d[0]] + d[1..];
    if p < d {
      assert p[1..] == d[..|p|][1..] == d[1..][..|p| - 1];
    }
    if p[0] == d[0] && p[1..] < d[1..] {
      assert d[..|p|] == [d[0]] + d[1..][..|p| - 1];
    }
  }

  lemma {:induction false} ClimbIsInjective(p: seq<string>, d: seq<string>)
    requires ProperParts(p) && ProperParts(d)
    ensures Climb(p) == Climb(d) <==> p == d
  {
    if p != [] && d != [] && Climb(p) == Climb(d) {
      var x, y := Climb(p[1..]), Climb(d[1..]);
      assert Climb(p) == "/" + (p[0] + x) && Climb(d) == "/" + (d[0] + y);
      assert p[0] + x == d[0] + y by {
        assert p[0] + x == Climb(p)[1..] && d[0] + y == Climb(d)[1..];
      }
      HeadsMatch(p[0], x, d[0], y);
      ClimbIsInjective(p[1..], d[1..]);
      assert p == [p[0]] + p[1..] && d == [d[0]] + d[1..];
    }
  }

  lemma HeadsMatch(a: string, x: string, b: string, y: string)
    requires '/' !in a && '/' !in b && (x == "" || x[0] == '/') && (y == "" || y[0] == '/')
    requires a + x == b + y
    ensures a == b && x == y
  {
    PartsMatch(a, x + "/", b, y + "/");
    assert a + (x + "/") == (a + x) + "/" && b + (y + "/") == (b + y) + "/";
    assert a == b;
    assert x == (a + x)[|a|..] && y == (b + y)[|b|..];
  }

  lemma ClimbEnd(parts: seq<string>)
    requires ProperParts(parts) && parts != []
    ensures RStrip(Climb(parts)) == Climb(parts) && Climb(parts) != "" && Climb(parts) != "/"
  {
    LastLetter(parts);
  }

  lemma {:induction false} LastLetter(parts: seq<string>)
    requires ProperParts(parts) && parts != []
    ensures |Climb(parts)| >= 2 && Climb(parts)[|Climb(parts)| - 1] != '/'
  {
    if |parts| == 1 {
      assert Climb(parts[1..]) == "";
      assert parts[0][|parts[0]| - 1] in parts[0];
    } else {
      LastLetter(parts[1..]);
    }
  }

  /**
    * Of two paths, a mount point covers a directory exactly when its components are a beginning of the
    * directory's, and a mount is relevant exactly when one of the two lies at or below the other.
    */
  lemma {:induction false} RelevantMeans(d: seq<string>, p: seq<string>, m: Mount)
    requires ProperParts(d) && ProperParts(p) && m.point == PathText(p)
    ensures Covers(PathText(d), m.point) <==> p <= d
    ensures Relevant(PathText(d), m) <==> p <= d || d <= p
  {
    BelowMeans(p, d);
    BelowMeans(d, p);
    ClimbIsInjective(p, d);
    if p != [] {
      ClimbEnd(p);
    }
    if d != [] {
      ClimbEnd(d);
    }
    assert RStrip("/") == "";
  }

  function Selected(directory: string, records: set<Mount>): set<seq<string>> {
    set m | m in records && Relevant(directory, m) :: m.exact
  }

  predicate HasPropagation(tag: string) {
    || tag == "shared" || "shared:" <= tag
    || tag == "master" || "master:" <= tag
    || tag == "propagate_from" || "propagate_from:" <= tag
  }

  predicate Private(m: Mount) {
    forall t :: t in m.optional ==> !HasPropagation(t)
  }

  datatype Snapshot = Snapshot(namespace: Namespace, selected: set<seq<string>>, count: nat, allPrivate: bool)

  function RelevantMounts(directory: string, records: set<Mount>): Result<set<seq<string>>, Code> {
    if exists m :: m in records && Covers(directory, m.point) then Ok(Selected(directory, records)) else Err(MountinfoInvalid)
  }

  /** Two readings of the outer table that must agree. */
  function SnapshotOf(directory: string, first: Reading, second: Reading): Result<Snapshot, Code> {
    match first
    case Err(e) => Err(e)
    case Ok(v) =>
      match RelevantMounts(directory, v.records)
      case Err(e) => Err(e)
      case Ok(selected) =>
        match second
        case Err(e) => Err(e)
        case Ok(w) =>
          match RelevantMounts(directory, w.records)
          case Err(e) => Err(e)
          case Ok(again) =>
            if w.namespace != v.namespace then Err(OuterNamespaceChanged)
            else if selected != again then Err(OuterMountsChanged)
            else Ok(Snapshot(v.namespace, selected, |set m | m in v.records && Relevant(directory, m)|,
                             forall m :: m in v.records && m.exact in selected ==> Private(m)))
  }

  /** The mounts the runtime must have: each expected point once, with its access and the hardening options. */
  function RuntimeMountProof(expected: map<string, string>, records: set<Mount>): Result<map<string, set<seq<string>>>, Code> {
    if exists m :: m in records && !Private(m) then Err(RuntimePropagation)
    else if exists p :: p in expected && At(records, p) == {} then Err(RuntimeMountsMissing)
    else if exists p :: p in expected && !Hardened(expected[p], At(records, p)) then Err(RuntimeMountFlags)
    else Ok(map p | p in expected :: Exacts(records, p))
  }

  function At(records: set<Mount>, point: string): set<Mount> {
    set m | m in records && m.point == point
  }

  function Exacts(records: set<Mount>, point: string): set<seq<string>> {
    set m | m in At(records, point) :: m.exact
  }

  predicate Hardened(access: string, ms: set<Mount>) {
    |ms| == 1 && forall m :: m in ms ==> {access, "nosuid", "nodev", "noexec"} <= m.options
  }

  /** One turn of the retry loop: two readings of the runtime table. */
  datatype Attempt = Attempt(first: Reading, second: Reading)

  /** The runtime's namespace, and its records in both readings. */
  datatype Runtime = Runtime(namespace: Namespace, first: set<Mount>, second: set<Mount>)

  function AttemptOutcome(expected: map<string, string>, baseline: Snapshot, a: Attempt): Result<Runtime, Code> {
    match a.first
    case Err(e) => Err(e)
    case Ok(v) =>
      if v.namespace == baseline.namespace then Err(RuntimeNamespaceChanged)
      else
        match RuntimeMountProof(expected, v.records)
        case Err(e) => Err(e)
        case Ok(proof) =>
          match a.second
          case Err(e) => Err(e)
          case Ok(w) =>
            if w.namespace != v.namespace then Err(RuntimeNamespaceChanged)
            else
              match RuntimeMountProof(expected, w.records)
              case Err(e) => Err(e)
              case Ok(again) => if again != proof then Err(RuntimeMountFlags) else Ok(Runtime(v.namespace, v.records, w.records))
  }

  /** `attempts` are the turns that fit before the deadline passes; only missing mounts are waited for. */
  function AttemptsOutcome(expected: map<string, string>, baseline: Snapshot, attempts: seq<Attempt>): Result<Runtime, Code>
    requires attempts != []
  {
    var outcome := AttemptOutcome(expected, baseline, attempts[0]);
    if outcome == Err(RuntimeMountsMissing) && |attempts| > 1 then AttemptsOutcome(expected, baseline, attempts[1..])
    else outcome
  }

  // What the readings must show, record by record.

  /** No record propagates mounts to or from another namespace. */
  ghost predicate NothingShared(records: set<Mount>) {
    forall m, tag :: m in records && tag in m.optional ==>
      && tag != "shared" && tag != "master" && tag != "propagate_from"
      && !("shared:" <= tag) && !("master:" <= tag) && !("propagate_from:" <= tag)
  }

  /** `m` is the only record at the point, and has the access and the hardening options. */
  ghost predicate GuardedBy(records: set<Mount>, point: string, access: string, m: Mount) {
    && m in records && m.point == point && (forall w :: w in records && w.point == point ==> w == m)
    && access in m.options && "nosuid" in m.options && "nodev" in m.options && "noexec" in m.options
  }

  ghost predicate Guarded(records: set<Mount>, point: string, access: string) {
    exists m :: GuardedBy(records, point, access, m)
  }

  /** Nothing is shared, and each expected point is guarded by one record. */
  ghost predicate Isolated(expected: map<string, string>, records: set<Mount>) {
    NothingShared(records) && forall p :: p in expected ==> Guarded(records, p, expected[p])
  }

  /** The records at the expected points are the same in both. */
  ghost predicate SameAt(expected: map<string, string>, first: set<Mount>, second: set<Mount>) {
    forall m, w :: m in first && w in second && m.point == w.point && m.point in expected ==> m.exact == w.exact
  }

  /** Both readings show an isolated runtime in one namespace that is not the outer one. */
  ghost predicate Shows(expected: map<string, string>, outer: Namespace, a: Attempt, runtime: Runtime) {
    && a.first == Ok(View(runtime.namespace, runtime.first)) && a.second == Ok(View(runtime.namespace, runtime.second))
    && runtime.namespace != outer && Isolated(expected, runtime.first) && Isolated(expected, runtime.second)
    && SameAt(expected, runtime.first, runtime.second)
  }

  /** Nothing is shared, and some expected point has no record yet. */
  ghost predicate Lacks(expected: map<string, string>, records: set<Mount>) {
    NothingShared(records) && exists p :: p in expected && forall m :: m in records ==> m.point != p
  }

  /** An attempt that is waited out: a mount is missing in the first reading, or still in the second. */
  ghost predicate Waits(expected: map<string, string>, outer: Namespace, a: Attempt) {
    match a.first
    case Err(e) => e == RuntimeMountsMissing
    case Ok(v) =>
      && v.namespace != outer
      && (Lacks(expected, v.records)
          || (Isolated(expected, v.records)
              && match a.second
                 case Err(e) => e == RuntimeMountsMissing
                 case Ok(w) => w.namespace == v.namespace && Lacks(expected, w.records)))
  }

  /** After attempts that were waited out, attempt `i` shows the runtime. */
  ghost predicate ShowsAt(expected: map<string, string>, outer: Namespace, attempts: seq<Attempt>, i: nat, runtime: Runtime) {
    i < |attempts| && Shows(expected, outer, attempts[i], runtime) && forall j :: 0 <= j < i ==> Waits(expected, outer, attempts[j])
  }

  ghost predicate Witnessed(expected: map<string, string>, outer: Namespace, attempts: seq<Attempt>, runtime: Runtime) {
    exists i :: ShowsAt(expected, outer, attempts, i, runtime)
  }

  /** Both readings hold a record that covers the directory, and agree on the namespace and on the mounts around it. */
  ghost predicate Snaps(directory: string, first: Reading, second: Reading, s: Snapshot) {
    && first.Ok? && second.Ok? && first.value.namespace == second.value.namespace == s.namespace
    && (exists m :: m in first.value.records && Covers(directory, m.point))
    && (exists m :: m in second.value.records && Covers(directory, m.point))
    && (forall e :: e in s.selected <==> exists m :: m in first.value.records && Relevant(directory, m) && m.exact == e)
    && (forall e :: e in s.selected <==> exists m :: m in second.value.records && Relevant(directory, m) && m.exact == e)
    && s.count == |set m | m in first.value.records && Relevant(directory, m)|
    && (s.allPrivate <==> NothingShared(set m | m in first.value.records && m.exact in s.selected))
  }

  lemma PrivateMeans(records: set<Mount>)
    ensures (forall m :: m in records ==> Private(m)) <==> NothingShared(records)
  {
  }

  lemma OneAt(records: set<Mount>, p: string, access: string)
    ensures Hardened(access, At(records, p)) <==> Guarded(records, p, access)
  {
    var ms := At(records, p);
    if Hardened(access, ms) {
      var m :| m in ms;
      assert |ms - {m}| == 0;
      assert ms == {m};
      forall w | w in records && w.point == p
        ensures w == m
      {
        assert w in ms;
      }
      assert GuardedBy(records, p, access, m);
    }
    if m :| GuardedBy(records, p, access, m) {
      assert ms == {m};
    }
  }

  lemma ProofMeans(expected: map<string, string>, records: set<Mount>)
    ensures RuntimeMountProof(expected, records).Ok? <==> Isolated(expected, records)
    ensures RuntimeMountProof(expected, records) == Err(RuntimeMountsMissing) <==> Lacks(expected, records)
  {
    PrivateMeans(records);
    forall p | p in expected
      ensures At(records, p) == {} <==> forall m :: m in records ==> m.point != p
      ensures Hardened(expected[p], At(records, p)) <==> Guarded(records, p, expected[p])
    {
      OneAt(records, p, expected[p]);
      assert forall m :: m in records && m.point == p ==> m in At(records, p);
    }
    assert Isolated(expected, records) ==> forall p :: p in expected ==> At(records, p) != {};
  }

  lemma OneExact(records: set<Mount>, p: string, access: string) returns (m: Mount)
    requires Guarded(records, p, access)
    ensures GuardedBy(records, p, access, m) && Exacts(records, p) == {m.exact}
  {
    m :| GuardedBy(records, p, access, m);
    assert At(records, p) == {m};
  }

  lemma SameExacts(first: set<Mount>, second: set<Mount>, p: string, access: string)
    requires Guarded(first, p, access) && Guarded(second, p, access)
    ensures Exacts(first, p) == Exacts(second, p)
            <==> forall m, w :: m in first && w in second && m.point == w.point == p ==> m.exact == w.exact
  {
    var m := OneExact(first, p, access);
    var w := OneExact(second, p, access);
    if Exacts(first, p) == Exacts(second, p) {
      assert m.exact in Exacts(second, p);
    }
  }

  /** Two proofs are equal exactly when the records at the expected points are. */
  lemma SameProof(expected: map<string, string>, first: set<Mount>, second: set<Mount>)
    requires Isolated(expected, first) && Isolated(expected, second)
    ensures SameExactsAt(expected, first, second) <==> SameAt(expected, first, second)
  {
    forall p | p in expected
      ensures Exacts(first, p) == Exacts(second, p)
              <==> forall m, w :: m in first && w in second && m.point == w.point == p ==> m.exact == w.exact
    {
      SameExacts(first, second, p, expected[p]);
    }
  }

  ghost predicate SameExactsAt(expected: map<string, string>, first: set<Mount>, second: set<Mount>) {
    forall p :: p in expected ==> Exacts(first, p) == Exacts(second, p)
  }

  lemma ProofsCompare(expected: map<string, string>, first: set<Mount>, second: set<Mount>)
    requires RuntimeMountProof(expected, first).Ok? && RuntimeMountProof(expected, second).Ok?
    ensures RuntimeMountProof(expected, first) == RuntimeMountProof(expected, second) <==> SameExactsAt(expected, first, second)
  {
    var a, b := RuntimeMountProof(expected, first).value, RuntimeMountProof(expected, second).value;
    assert a == b <==> forall p :: p in expected ==> a[p] == b[p];
  }

  /** What the proofs of an attempt's readings come to. */
  lemma ReadingsMean(expected: map<string, string>, a: Attempt)
    ensures a.first.Ok? ==> var v := a.first.value.records;
              && (RuntimeMountProof(expected, v).Ok? <==> Isolated(expected, v))
              && (RuntimeMountProof(expected, v) == Err(RuntimeMountsMissing) <==> Lacks(expected, v))
    ensures a.second.Ok? ==> var w := a.second.value.records;
              && (RuntimeMountProof(expected, w).Ok? <==> Isolated(expected, w))
              && (RuntimeMountProof(expected, w) == Err(RuntimeMountsMissing) <==> Lacks(expected, w))
    ensures a.first.Ok? && a.second.Ok? && Isolated(expected, a.first.value.records) && Isolated(expected, a.second.value.records) ==>
              var v, w := a.first.value.records, a.second.value.records;
              RuntimeMountProof(expected, v) == RuntimeMountProof(expected, w) <==> SameAt(expected, v, w)
  {
    if a.first.Ok? {
      ProofMeans(expected, a.first.value.records);
    }
    if a.second.Ok? {
      ProofMeans(expected, a.second.value.records);
    }
    if a.first.Ok? && a.second.Ok? && Isolated(expected, a.first.value.records) && Isolated(expected, a.second.value.records) {
      SameProof(expected, a.first.value.records, a.second.value.records);
      ProofsCompare(expected, a.first.value.records, a.second.value.records);
    }
  }

  /** An attempt succeeds exactly when it shows an isolated runtime. */
  lemma AttemptMeans(expected: map<string, string>, baseline: Snapshot, a: Attempt, runtime: Runtime)
    ensures AttemptOutcome(expected, baseline, a) == Ok(runtime) <==> Shows(expected, baseline.namespace, a, runtime)
  {
    ReadingsMean(expected, a);
  }

  /** And it is retried exactly when a mount is missing. */
  lemma AttemptWaits(expected: map<string, string>, baseline: Snapshot, a: Attempt)
    ensures AttemptOutcome(expected, baseline, a) == Err(RuntimeMountsMissing) <==> Waits(expected, baseline.namespace, a)
  {
    ReadingsMean(expected, a);
  }

  lemma {:induction false} AttemptsMean(expected: map<string, string>, baseline: Snapshot, attempts: seq<Attempt>, runtime: Runtime)
    requires attempts != []
    ensures AttemptsOutcome(expected, baseline, attempts) == Ok(runtime) <==> Witnessed(expected, baseline.namespace, attempts, runtime)
  {
    var outer := baseline.namespace;
    AttemptMeans(expected, baseline, attempts[0], runtime);
    AttemptWaits(expected, baseline, attempts[0]);
    if AttemptOutcome(expected, baseline, attempts[0]) == Err(RuntimeMountsMissing) && |attempts| > 1 {
      AttemptsMean(expected, baseline, attempts[1..], runtime);
      WitnessLater(expected, outer, attempts, runtime);
    } else if Shows(expected, outer, attempts[0], runtime) {
      assert ShowsAt(expected, outer, attempts, 0, runtime);
    }
  }

  lemma WitnessLater(expected: map<string, string>, outer: Namespace, attempts: seq<Attempt>, runtime: Runtime)
    requires attempts != [] && Waits(expected, outer, attempts[0]) && !Shows(expected, outer, attempts[0], runtime)
    ensures Witnessed(expected, outer, attempts, runtime) <==> Witnessed(expected, outer, attempts[1..], runtime)
  {
    if i: nat :| ShowsAt(expected, outer, attempts[1..], i, runtime) {
      forall j | 0 <= j < i + 1
        ensures Waits(expected, outer, attempts[j])
      {
        assert j > 0 ==> attempts[1..][j - 1] == attempts[j];
      }
      assert ShowsAt(expected, outer, attempts, i + 1, runtime);
    }
    if i: nat :| ShowsAt(expected, outer, attempts, i, runtime) {
      assert forall j :: 0 <= j < i - 1 ==> attempts[1..][j] == attempts[j + 1];
      assert ShowsAt(expected, outer, attempts[1..], i - 1, runtime);
    }
  }

  lemma SnapshotMeans(directory: string, first: Reading, second: Reading, s: Snapshot)
    ensures SnapshotOf(directory, first, second) == Ok(s) <==> Snaps(directory, first, second, s)
  {
    if first.Ok? && second.Ok? {
      var records := set m | m in first.value.records && m.exact in s.selected;
      PrivateMeans(records);
      assert s.selected == Selected(directory, first.value.records)
             <==> forall e :: e in s.selected <==> exists m :: m in first.value.records && Relevant(directory, m) && m.exact == e;
      assert s.selected == Selected(directory, second.value.records)
             <==> forall e :: e in s.selected <==> exists m :: m in second.value.records && Relevant(directory, m) && m.exact == e;
    }
  }

  datatype Phase = New | Checking | Baseline | Live | Complete

  datatype State = State(phase: Phase, baseline: Option<Snapshot>)

  const START := State(New, None)

  /**
    * A call with all its readings. For `During`, no attempt fits when the deadline has passed on entry;
    * `late`: it passes before the end.
    */
  datatype Call =
    | CallBefore(first: Reading, second: Reading)
    | CallDuring(attempts: seq<Attempt>, first: Reading, second: Reading, late: bool)
    | CallAfter(first: Reading, second: Reading)

  /** The snapshot a successful call took; `During` also saw the runtime. */
  datatype Seen = SeenBefore(snapshot: Snapshot) | SeenDuring(snapshot: Snapshot, runtime: Runtime) | SeenAfter(snapshot: Snapshot)

  ghost predicate Valid(st: State) {
    st.phase in {Baseline, Live, Complete} ==> st.baseline.Some?
  }

  function OuterUnchanged(directory: string, baseline: Snapshot, first: Reading, second: Reading): Result<Snapshot, Code> {
    match SnapshotOf(directory, first, second)
    case Err(e) => Err(e)
    case Ok(current) =>
      if current.namespace != baseline.namespace then Err(OuterNamespaceChanged)
      else if current.selected != baseline.selected then Err(OuterMountsChanged)
      else Ok(current)
  }

  /** The same outer namespace and the same selected mounts. */
  ghost predicate SameOuter(a: Snapshot, b: Snapshot) {
    a.namespace == b.namespace && a.selected == b.selected
  }

  /** The outer readings agree with each other and with the baseline. */
  ghost predicate Outer(directory: string, baseline: Snapshot, first: Reading, second: Reading) {
    exists s :: Snaps(directory, first, second, s) && SameOuter(s, baseline)
  }

  lemma OuterMeans(directory: string, first: Reading, second: Reading)
    ensures SnapshotOf(directory, first, second).Ok? <==> exists s :: Snaps(directory, first, second, s)
    ensures forall s :: SnapshotOf(directory, first, second) == Ok(s) <==> Snaps(directory, first, second, s)
  {
    forall s
      ensures SnapshotOf(directory, first, second) == Ok(s) <==> Snaps(directory, first, second, s)
    {
      SnapshotMeans(directory, first, second, s);
    }
    assert SnapshotOf(directory, first, second).Ok? ==> Snaps(directory, first, second, SnapshotOf(directory, first, second).value);
  }

  lemma UnchangedMeans(directory: string, baseline: Snapshot, first: Reading, second: Reading)
    ensures OuterUnchanged(directory, baseline, first, second).Ok? <==> Outer(directory, baseline, first, second)
  {
    OuterMeans(directory, first, second);
  }

  lemma AttemptsDecide(expected: map<string, string>, baseline: Snapshot, attempts: seq<Attempt>)
    requires attempts != []
    ensures AttemptsOutcome(expected, baseline, attempts).Ok?
            <==> exists runtime :: Witnessed(expected, baseline.namespace, attempts, runtime)
    ensures forall runtime ::
              AttemptsOutcome(expected, baseline, attempts) == Ok(runtime) <==> Witnessed(expected, baseline.namespace, attempts, runtime)
  {
    var r := AttemptsOutcome(expected, baseline, attempts);
    forall runtime
      ensures r == Ok(runtime) <==> Witnessed(expected, baseline.namespace, attempts, runtime)
    {
      AttemptsMean(expected, baseline, attempts, runtime);
    }
    assert r.Ok? ==> Witnessed(expected, baseline.namespace, attempts, r.value);
  }

  /** One call: the new state, and what it saw or why it failed. */
  function Step(directory: string, expected: map<string, string>, st: State, c: Call): (State, Result<Seen, Code>)
    requires Valid(st)
  {
    var stuck := st.(phase := Checking);
    match c
    case CallBefore(first, second) =>
      if st.phase != New then (st, Err(OraclePhase))
      else
        (match SnapshotOf(directory, first, second)
         case Err(e) => (stuck, Err(e))
         case Ok(s) => (State(Baseline, Some(s)), Ok(SeenBefore(s))))
    case CallDuring(attempts, first, second, late) =>
      if st.phase != Baseline then (st, Err(OraclePhase))
      else if attempts == [] then (st, Err(OracleDeadline))
      else
        (match AttemptsOutcome(expected, st.baseline.value, attempts)
         case Err(e) => (stuck, Err(e))
         case Ok(runtime) =>
           match OuterUnchanged(directory, st.baseline.value, first, second)
           case Err(e) => (stuck, Err(e))
           case Ok(s) => if late then (stuck, Err(OracleDeadline)) else (st.(phase := Live), Ok(SeenDuring(s, runtime))))
    case CallAfter(first, second) =>
      if st.phase != Live then (st, Err(OraclePhase))
      else
        (match OuterUnchanged(directory, st.baseline.value, first, second)
         case Err(e) => (stuck, Err(e))
         case Ok(s) => (st.(phase := Complete), Ok(SeenAfter(s))))
  }

  class MountIsolationOracle {
    const directory: string
    const expected: map<string, string>
    var phase: Phase
    var baseline: Option<Snapshot>

    ghost function Abstract(): State
      reads this
    {
      State(phase, baseline)
    }

    constructor (directory: string, expected: map<string, string>)
      ensures Abstract() == START && this.directory == directory && this.expected == expected
    {
      this.directory, this.expected, phase, baseline := directory, expected, New, None;
    }

    method Before(first: Reading, second: Reading) returns (r: Result<Seen, Code>)
      requires Valid(Abstract())
      modifies this`phase, this`baseline
      ensures (Abstract(), r) == Step(directory, expected, old(Abstract()), CallBefore(first, second))
      ensures r.Ok? <==> old(phase) == New && exists s :: Snaps(directory, first, second, s)
      ensures r.Ok? ==> r.value.SeenBefore? && Snaps(directory, first, second, r.value.snapshot) && baseline == Some(r.value.snapshot)
    {
      if phase != New {
        return Err(OraclePhase);
      }
      phase := Checking;
      var s := SnapshotOf(directory, first, second);
      OuterMeans(directory, first, second);
      if s.Err? {
        return Err(s.error);
      }
      baseline, phase := Some(s.value), Baseline;
      return Ok(SeenBefore(s.value));
    }

    method During(attempts: seq<Attempt>, first: Reading, second: Reading, late: bool) returns (r: Result<Seen, Code>)
      requires Valid(Abstract())
      modifies this`phase
      ensures (Abstract(), r) == Step(directory, expected, old(Abstract()), CallDuring(attempts, first, second, late))
      ensures r.Ok? <==> && old(phase) == Baseline && !late
                         && (exists runtime :: Witnessed(expected, old(baseline).value.namespace, attempts, runtime))
                         && Outer(directory, old(baseline).value, first, second)
      ensures r.Ok? ==> r.value.SeenDuring? && Witnessed(expected, old(baseline).value.namespace, attempts, r.value.runtime)
    {
      if phase != Baseline {
        return Err(OraclePhase);
      }
      if attempts == [] {
        return Err(OracleDeadline);
      }
      phase := Checking;
      var i := 0;
      var outcome := AttemptOutcome(expected, baseline.value, attempts[0]);
      while outcome == Err(RuntimeMountsMissing) && i + 1 < |attempts|
        invariant i < |attempts| && outcome == AttemptOutcome(expected, baseline.value, attempts[i])
        invariant AttemptsOutcome(expected, baseline.value, attempts) == AttemptsOutcome(expected, baseline.value, attempts[i..])
      {
        assert attempts[i..][1..] == attempts[i + 1..];
        i := i + 1;
        outcome := AttemptOutcome(expected, baseline.value, attempts[i]);
      }
      AttemptsDecide(expected, baseline.value, attempts);
      assert attempts[i..] != [];
      if outcome.Err? {
        return Err(outcome.error);
      }
      var s := OuterUnchanged(directory, baseline.value, first, second);
      UnchangedMeans(directory, baseline.value, first, second);
      if s.Err? {
        return Err(s.error);
      }
      if late {
        return Err(OracleDeadline);
      }
      phase := Live;
      return Ok(SeenDuring(s.value, outcome.value));
    }

    method After(first: Reading, second: Reading) returns (r: Result<Seen, Code>)
      requires Valid(Abstract())
      modifies this`phase
      ensures (Abstract(), r) == Step(directory, expected, old(Abstract()), CallAfter(first, second))
      ensures r.Ok? <==> old(phase) == Live && Outer(directory, old(baseline).value, first, second)
    {
      if phase != Live {
        return Err(OraclePhase);
      }
      phase := Checking;
      var s := OuterUnchanged(directory, baseline.value, first, second);
      UnchangedMeans(directory, baseline.value, first, second);
      if s.Err? {
        return Err(s.error);
      }
      phase := Complete;
      return Ok(SeenAfter(s.value));
    }
  }

  // Whole runs: any calls, in any order, from a new oracle.

  /** The state after the calls and what the successful ones saw, in order. */
  ghost function Run(directory: string, expected: map<string, string>, st: State, calls: seq<Call>): (State, seq<Seen>)
    requires Valid(st)
    ensures Valid(Run(directory, expected, st, calls).0)
    decreases |calls|
  {
    if calls == [] then (st, [])
    else
      var (before, seen) := Run(directory, expected, st, calls[..|calls| - 1]);
      var (after, r) := Step(directory, expected, before, calls[|calls| - 1]);
      (after, if r.Ok? then seen + [r.value] else seen)
  }

  /** What the successful calls have seen by the time a phase is reached. */
  ghost predicate Trail(expected: map<string, string>, st: State, seen: seq<Seen>) {
    match st.phase
    case New => seen == [] && st.baseline == None
    case Baseline => |seen| == 1 && SawBaseline(st, seen)
    case Live => |seen| == 2 && SawBaseline(st, seen) && SawRuntime(expected, seen)
    case Complete => |seen| == 3 && SawBaseline(st, seen) && SawRuntime(expected, seen)
                     && seen[2].SeenAfter? && SameOuter(seen[2].snapshot, seen[0].snapshot)
    case Checking => |seen| <= 2
  }

  ghost predicate SawBaseline(st: State, seen: seq<Seen>)
    requires |seen| >= 1
  {
    seen[0].SeenBefore? && st.baseline == Some(seen[0].snapshot)
  }

  /** An unchanged outer view, and a runtime in a namespace of its own, isolated in both readings and the same in both. */
  ghost predicate SawRuntime(expected: map<string, string>, seen: seq<Seen>)
    requires |seen| >= 2 && seen[0].SeenBefore?
  {
    && seen[1].SeenDuring? && SameOuter(seen[1].snapshot, seen[0].snapshot)
    && IsolatedFrom(expected, seen[0].snapshot.namespace, seen[1].runtime)
  }

  ghost predicate IsolatedFrom(expected: map<string, string>, outer: Namespace, runtime: Runtime) {
    && runtime.namespace != outer && Isolated(expected, runtime.first) && Isolated(expected, runtime.second)
    && SameAt(expected, runtime.first, runtime.second)
  }

  lemma AttemptsIsolated(expected: map<string, string>, baseline: Snapshot, attempts: seq<Attempt>)
    requires attempts != [] && AttemptsOutcome(expected, baseline, attempts).Ok?
    ensures IsolatedFrom(expected, baseline.namespace, AttemptsOutcome(expected, baseline, attempts).value)
  {
    AttemptsDecide(expected, baseline, attempts);
    var i: nat :| ShowsAt(expected, baseline.namespace, attempts, i, AttemptsOutcome(expected, baseline, attempts).value);
  }

  /**
    * Over every sequence of calls: the successes are one `before`, then one `during`, then one `after`,
    * and no more; `complete` is reached only through all three, with the outer namespace and the
    * selected mounts the same each time, and the runtime in a namespace of its own where nothing is shared
    * and every expected point is mounted once, with its access and hardening.
    */
  lemma {:induction false} RunLeavesTrail(directory: string, expected: map<string, string>, calls: seq<Call>)
    ensures Trail(expected, Run(directory, expected, START, calls).0, Run(directory, expected, START, calls).1)
  {
    if calls != [] {
      RunLeavesTrail(directory, expected, calls[..|calls| - 1]);
      var (before, seen) := Run(directory, expected, START, calls[..|calls| - 1]);
      var c := calls[|calls| - 1];
      if c.CallDuring? && before.phase == Baseline && c.attempts != []
         && AttemptsOutcome(expected, before.baseline.value, c.attempts).Ok?
      {
        AttemptsIsolated(expected, before.baseline.value, c.attempts);
      }
    }
  }

  /** Once a call has failed inside its check, no later call succeeds or moves the oracle. */
  lemma {:induction false} CheckingIsForever(directory: string, expected: map<string, string>, st: State, calls: seq<Call>)
    requires Valid(st) && st.phase == Checking
    ensures Run(directory, expected, st, calls) == (st, [])
  {
    if calls != [] {
      CheckingIsForever(directory, expected, st, calls[..|calls| - 1]);
    }
  }

  ghost predicate CanComplete(directory: string, expected: map<string, string>, st: State)
    requires Valid(st)
  {
    exists calls :: Run(directory, expected, st, calls).0.phase == Complete
  }

  /** The guards a call passes before it enters its check. */
  ghost predicate Entered(st: State, c: Call) {
    match c
    case CallBefore(_, _) => st.phase == New
    case CallDuring(attempts, _, _, _) => st.phase == Baseline && attempts != []
    case CallAfter(_, _) => st.phase == Live
  }

  /** The baseline of a reached state can be read again: its own two readings were among the calls. */
  lemma {:induction false} BaselineReadings(directory: string, expected: map<string, string>, calls: seq<Call>)
    returns (first: Reading, second: Reading)
    requires Run(directory, expected, START, calls).0.baseline.Some?
    ensures SnapshotOf(directory, first, second) == Ok(Run(directory, expected, START, calls).0.baseline.value)
  {
    if calls == [] {
      assert false;
    } else {
      var front, c := calls[..|calls| - 1], calls[|calls| - 1];
      var before := Run(directory, expected, START, front).0;
      if before.phase == New && c.CallBefore? && SnapshotOf(directory, c.first, c.second).Ok? {
        first, second := c.first, c.second;
      } else {
        first, second := BaselineReadings(directory, expected, front);
      }
    }
  }

  /** A runtime table that satisfies the proof, in a namespace other than `outer`. */
  ghost function GoodRuntime(expected: map<string, string>, outer: Namespace): View {
    View((outer.0 + 1, outer.1), set p | p in expected :: Good(expected, p))
  }

  ghost function Good(expected: map<string, string>, p: string): Mount
    requires p in expected
  {
    Mount(p, {expected[p], "nosuid", "nodev", "noexec"}, [], [p])
  }

  lemma GoodRuntimeProves(expected: map<string, string>, outer: Namespace)
    ensures RuntimeMountProof(expected, GoodRuntime(expected, outer).records).Ok?
  {
    var records := GoodRuntime(expected, outer).records;
    forall p | p in expected
      ensures At(records, p) == {Good(expected, p)}
    {
      assert Good(expected, p) in records;
    }
  }

  ghost function GoodDuring(expected: map<string, string>, outer: Namespace, first: Reading, second: Reading): Call {
    var good := Ok(GoodRuntime(expected, outer));
    CallDuring([Attempt(good, good)], first, second, false)
  }

  lemma GoodDuringSucceeds(directory: string, expected: map<string, string>, st: State, first: Reading, second: Reading)
    requires Valid(st) && st.phase == Baseline && SnapshotOf(directory, first, second) == Ok(st.baseline.value)
    ensures Step(directory, expected, st, GoodDuring(expected, st.baseline.value.namespace, first, second)).0 == st.(phase := Live)
  {
    GoodRuntimeProves(expected, st.baseline.value.namespace);
  }

  lemma RunOne(directory: string, expected: map<string, string>, st: State, calls: seq<Call>, c: Call)
    requires Valid(st)
    ensures Run(directory, expected, st, calls + [c]).0 == Step(directory, expected, Run(directory, expected, st, calls).0, c).0
  {
    assert (calls + [c])[..|calls|] == calls;
  }

  lemma LiveCompletes(directory: string, expected: map<string, string>, st: State, calls: seq<Call>, first: Reading, second: Reading)
    requires Valid(st) && Run(directory, expected, st, calls).0.phase == Live
    requires SnapshotOf(directory, first, second) == Ok(Run(directory, expected, st, calls).0.baseline.value)
    ensures CanComplete(directory, expected, st)
  {
    RunOne(directory, expected, st, calls, CallAfter(first, second));
    assert Run(directory, expected, st, calls + [CallAfter(first, second)]).0.phase == Complete;
  }

  lemma BaselineCompletes(directory: string, expected: map<string, string>, st: State, calls: seq<Call>, first: Reading, second: Reading)
    requires Valid(st) && Run(directory, expected, st, calls).0.phase == Baseline
    requires SnapshotOf(directory, first, second) == Ok(Run(directory, expected, st, calls).0.baseline.value)
    ensures CanComplete(directory, expected, st)
  {
    var base := Run(directory, expected, st, calls).0;
    var during := GoodDuring(expected, base.baseline.value.namespace, first, second);
    GoodDuringSucceeds(directory, expected, base, first, second);
    RunOne(directory, expected, st, calls, during);
    LiveCompletes(directory, expected, st, calls + [during], first, second);
  }

  /** Any reached state other than `checking` can still be brought to `complete`. */
  lemma OpenStateCompletes(directory: string, expected: map<string, string>, calls: seq<Call>)
    requires Run(directory, expected, START, calls).0.phase != Checking
    ensures CanComplete(directory, expected, Run(directory, expected, START, calls).0)
  {
    var st := Run(directory, expected, START, calls).0;
    RunLeavesTrail(directory, expected, calls);
    assert Run(directory, expected, st, []) == (st, []);
    match st.phase
    case New =>
      var reading: Reading := Ok(View((0, 1), {Mount("/", {}, [], [])}));
      assert Covers(directory, "/");
      assert Mount("/", {}, [], []) in reading.value.records;
      assert SnapshotOf(directory, reading, reading).Ok?;
      RunOne(directory, expected, st, [], CallBefore(reading, reading));
      BaselineCompletes(directory, expected, st, [] + [CallBefore(reading, reading)], reading, reading);
    case Baseline =>
      var first, second := BaselineReadings(directory, expected, calls);
      BaselineCompletes(directory, expected, st, [], first, second);
    case Live =>
      var first, second := BaselineReadings(directory, expected, calls);
      LiveCompletes(directory, expected, st, [], first, second);
    case Complete =>
  }

  /**
    * The refusal that can be retried: after `before`, a `during` whose deadline is already past fails and
    * changes nothing, and a later `during` and `after` still reach `complete`.
    */
  lemma {:induction false} DeadlineIsRetried(directory: string, expected: map<string, string>, first: Reading, second: Reading, late: Call)
    requires SnapshotOf(directory, first, second).Ok? && late.CallDuring? && late.attempts == []
    ensures var (base, seen) := Step(directory, expected, START, CallBefore(first, second));
            && seen.Ok? && base.phase == Baseline && Step(directory, expected, base, late) == (base, Err(OracleDeadline))
            && var live := Step(directory, expected, base, GoodDuring(expected, base.baseline.value.namespace, first, second)).0;
               live.phase == Live && Step(directory, expected, live, CallAfter(first, second)).0.phase == Complete
  {
    var base := Step(directory, expected, START, CallBefore(first, second)).0;
    GoodDuringSucceeds(directory, expected, base, first, second);
  }

  /**
    * Not every failure is final. After a failed call `complete` stays reachable exactly when the call
    * was turned away by its guards: a wrong phase, or for `during` a deadline already past on entry.
    */
  lemma FailureIsFinalOnceEntered(directory: string, expected: map<string, string>, calls: seq<Call>, c: Call)
    requires var st := Run(directory, expected, START, calls).0;
             st.phase != Checking && Step(directory, expected, st, c).1.Err?
    ensures var st := Run(directory, expected, START, calls).0;
            CanComplete(directory, expected, Step(directory, expected, st, c).0) <==> !Entered(st, c)
  {
    var st := Run(directory, expected, START, calls).0;
    var after := Step(directory, expected, st, c).0;
    if Entered(st, c) {
      forall more
        ensures Run(directory, expected, after, more).0.phase != Complete
      {
        CheckingIsForever(directory, expected, after, more);
      }
    } else {
      assert after == st;
      OpenStateCompletes(directory, expected, calls);
    }
  }
}
