/** Where `resolve_link` gives up: after too many links, and at a target that leaves the root. */
module LinkDepth {
  import opened Outcome
  import opened Text
  import opened RelativePath
  import opened LinkResolution

  /** Names of different lengths. */
  function Name(i: nat): string {
    if i == 0 then "a" else Name(i - 1) + "a"
  }

  lemma {:induction false} NameShape(i: nat)
    ensures |Name(i)| == i + 1 && '/' !in Name(i) && IsPlain(Name(i))
    ensures Name(i)[0] == 'a'
  {
    if i > 0 {
      NameShape(i - 1);
    }
    assert Name(i)[0] == 'a' && "."[0] == '.' && ".."[0] == '.';
  }

  lemma NamesDiffer(i: nat)
    ensures forall j: nat :: [Name(j)] == [Name(i)] ==> j == i
  {
    NameShape(i);
    forall j: nat | [Name(j)] == [Name(i)]
      ensures j == i
    {
      NameShape(j);
      assert [Name(j)][0] == [Name(i)][0];
    }
  }

  /** `n` links, each to the next name, and a file at the end. */
  ghost predicate IsChain(inputs: Inputs, n: nat) {
    && (forall i: nat :: i < n ==> [Name(i)] in inputs && inputs[[Name(i)]] == Symlink(Name(i + 1)))
    && [Name(n)] in inputs && inputs[[Name(n)]].File?
  }

  /** The end of a chain and its last `k` links. */
  ghost function Chain(n: nat, k: nat): Inputs
    requires k <= n
  {
    if k == 0 then map[[Name(n)] := File("", 0)] else Chain(n, k - 1)[[Name(n - k)] := Symlink(Name(n - k + 1))]
  }

  lemma {:induction false} ChainHas(n: nat, k: nat)
    requires k <= n
    ensures forall i: nat :: n - k <= i < n ==> [Name(i)] in Chain(n, k) && Chain(n, k)[[Name(i)]] == Symlink(Name(i + 1))
    ensures [Name(n)] in Chain(n, k) && Chain(n, k)[[Name(n)]] == File("", 0)
    ensures forall i: nat :: i < n - k ==> [Name(i)] !in Chain(n, k)
  {
    NamesDiffer(n - k);
    if k > 0 {
      ChainHas(n, k - 1);
    }
  }

  lemma ChainExists(n: nat)
    ensures IsChain(Chain(n, n), n)
  {
    ChainHas(n, n);
  }

  lemma PlainTarget(link: string, target: string)
    requires '/' !in target && IsPlain(target)
    ensures Expand([link], target, []) == [target] && !IsAbsolute(target) && !Escapes([target])
  {
    SplitPlain('/', target);
    KeptNone([target]);
    NormPlain([target]);
    assert [link][..0] + Parts(target) + [] == [target];
  }

  lemma NextInChain(inputs: Inputs, n: nat, i: nat)
    requires IsChain(inputs, n) && i <= n
    ensures Hopper(inputs)([Name(i)]) == if i < n then Go([Name(i)], [Name(i + 1)]) else Settled
  {
    var p := [Name(i)];
    assert p[..1] == p && p[1..] == [];
    if i < n {
      NameShape(i + 1);
      PlainTarget(Name(i), Name(i + 1));
      assert FirstLink(inputs, p, 1) == Some(1);
    } else {
      assert FirstLink(inputs, p, 1) == None;
    }
  }

  /** The names from the `i`-th on have not been replaced yet. */
  ghost predicate Unseen(seen: set<Path>, i: nat, n: nat) {
    forall j: nat :: i <= j <= n ==> [Name(j)] !in seen
  }

  lemma NextUnseen(seen: set<Path>, i: nat, n: nat)
    requires Unseen(seen, i, n)
    ensures Unseen(seen + {[Name(i)]}, i + 1, n)
  {
    NamesDiffer(i);
  }

  ghost predicate HopsAt(hop: Path -> Hop, n: nat, j: nat) {
    hop([Name(j)]) == if j < n then Go([Name(j)], [Name(j + 1)]) else Settled
  }

  lemma {:induction false} ResolveFrom(hop: Path -> Hop, closure: set<Path>, n: nat, i: nat, seen: set<Path>, rounds: nat)
    requires forall j: nat :: j <= n ==> HopsAt(hop, n, j)
    requires i <= n && [Name(n)] in closure && Unseen(seen, i, n)
    ensures Resolve(hop, closure, [Name(i)], seen, rounds) == if n - i < rounds then Ok([Name(n)]) else Err(LinkError.LinkDepth)
    decreases rounds
  {
    assert HopsAt(hop, n, i);
    if rounds > 0 && i < n {
      NextUnseen(seen, i, n);
      ResolveFrom(hop, closure, n, i + 1, seen + {[Name(i)]}, rounds - 1);
    }
  }

  /** A chain resolves to its end as long as it has fewer than forty links, and from forty on it is refused. */
  lemma {:induction false} FortyLinksAreTooMany(inputs: Inputs, directories: set<Path>, n: nat)
    requires IsChain(inputs, n)
    ensures ResolveName(inputs, directories, [Name(0)]) == if n < 40 then Ok([Name(n)]) else Err(LinkError.LinkDepth)
  {
    forall j: nat | j <= n
      ensures HopsAt(Hopper(inputs), n, j)
    {
      NextInChain(inputs, n, j);
    }
    ResolveFrom(Hopper(inputs), inputs.Keys + directories, n, 0, {}, MAX_ROUNDS);
  }

  /**
    * The first link of a path decides: a target that starts at the root or, taken as text from the link's
    * directory, above the inputs, is refused as an escape.
    */
  lemma {:induction false} FirstTargetEscapes(inputs: Inputs, directories: set<Path>, name: Path, k: nat)
    requires 1 <= k <= |name| && IsLink(inputs, name[..k]) && forall j :: 1 <= j < k ==> !IsLink(inputs, name[..j])
    requires var target := inputs[name[..k]].target;
             (target != "" && target[0] == '/') || Above(Norm(name[..k - 1] + Parts(target) + name[k..]))
    ensures ResolveName(inputs, directories, name) == Err(LinkEscape)
  {
    HopLeaves(inputs, name, k);
  }

  lemma HopLeaves(inputs: Inputs, name: Path, k: nat)
    requires 1 <= k <= |name| && IsLink(inputs, name[..k]) && forall j :: 1 <= j < k ==> !IsLink(inputs, name[..j])
    requires var target := inputs[name[..k]].target;
             (target != "" && target[0] == '/') || Above(Norm(name[..k - 1] + Parts(target) + name[k..]))
    ensures Hopper(inputs)(name) == Leave(name[..k])
  {
    var first := FirstLink(inputs, name, 1);
    assert first == Some(k);
    assert name[..k][..k - 1] == name[..k - 1];
  }

  ghost predicate Above(p: Path) {
    p != [] && p[0] == ".."
  }
}
