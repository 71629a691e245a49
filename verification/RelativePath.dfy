/** POSIX path text: splitting, `PurePosixPath`, `normpath`, and the closure path check of `stage.py`. */
module RelativePath {
  import opened Text

  type Path = seq<string>

  const MAX_NAME := 4096

  function Split(s: string): (parts: seq<string>)
    ensures |parts| >= 1 && forall p :: p in parts ==> '/' !in p
  {
    SplitOn('/', s)
  }

  function Join(parts: seq<string>): string {
    JoinWith('/', parts)
  }

  /** The components `PurePosixPath` keeps: neither empty nor `.`. */
  function Kept(parts: seq<string>): (kept: seq<string>)
    ensures forall p :: p in kept <==> p in parts && p != "" && p != "."
  {
    if parts == [] then []
    else (if parts[0] == "" || parts[0] == "." then [] else [parts[0]]) + Kept(parts[1..])
  }

  function Parts(value: string): seq<string> {
    Kept(Split(value))
  }

  predicate IsAbsolute(value: string) {
    value != "" && value[0] == '/'
  }

  /** `str(PurePosixPath(value))` of a relative value. */
  function PosixText(value: string): string {
    if Parts(value) == [] then "." else Join(Parts(value))
  }

  /** `relative_name` accepts `value`. */
  predicate IsRelativeName(value: string) {
    && value != "" && |value| <= MAX_NAME && '\0' !in value && '\\' !in value
    && !IsAbsolute(value) && PosixText(value) == value && ".." !in Parts(value)
  }

  predicate IsPlain(part: string) {
    part != "" && part != "." && part != ".."
  }

  ghost predicate AllPlain(parts: seq<string>) {
    forall i :: 0 <= i < |parts| ==> IsPlain(parts[i])
  }

  lemma AcceptedIsPlain(value: string)
    requires !IsAbsolute(value) && PosixText(value) == value && ".." !in Parts(value) && value != "."
    ensures AllPlain(Split(value))
  {
    var parts := Parts(value);
    assert forall p :: p in parts ==> p in Split(value) && IsPlain(p);
    JoinedArePlain(parts);
  }

  lemma JoinedArePlain(parts: seq<string>)
    requires |parts| >= 1 && forall p :: p in parts ==> '/' !in p && IsPlain(p)
    ensures AllPlain(Split(Join(parts)))
  {
    SplitOfJoin('/', parts);
    assert forall i :: 0 <= i < |parts| ==> parts[i] in parts;
  }

  lemma PlainIsAccepted(value: string)
    requires AllPlain(Split(value))
    ensures value != "" && !IsAbsolute(value) && PosixText(value) == value && ".." !in Parts(value)
  {
    KeptNone(Split(value));
    JoinOfSplit('/', value);
    assert IsPlain(Split(value)[0]);
  }

  lemma DotIsAccepted()
    ensures PosixText(".") == "." && Parts(".") == []
  {
    SplitPlain('/', ".");
    assert ["."][1..] == [];
  }

  /** The path check means: printable as given, and made of plain components only -- or the bare `.`. */
  lemma RelativeNameMeans(value: string)
    ensures IsRelativeName(value)
            <==> |value| <= MAX_NAME && '\0' !in value && '\\' !in value && (value == "." || AllPlain(Split(value)))
  {
    if value == "." {
      DotIsAccepted();
    } else if AllPlain(Split(value)) {
      PlainIsAccepted(value);
    } else if IsRelativeName(value) {
      AcceptedIsPlain(value);
    }
  }

  lemma {:induction false} KeptNone(parts: seq<string>)
    requires forall i :: 0 <= i < |parts| ==> parts[i] != "" && parts[i] != "."
    ensures Kept(parts) == parts
  {
    if parts != [] {
      KeptNone(parts[1..]);
      assert parts == [parts[0]] + parts[1..];
    }
  }

  /** One component of `os.path.normpath` on a relative path. */
  function NormStep(acc: Path, c: string): Path {
    if c == ".." && acc != [] && acc[|acc| - 1] != ".." then acc[..|acc| - 1] else acc + [c]
  }

  /** `normpath` of components that are neither empty nor `.`; the empty list stands for `.`. */
  function Norm(comps: seq<string>): Path {
    if comps == [] then [] else NormStep(Norm(comps[..|comps| - 1]), comps[|comps| - 1])
  }

  predicate Escapes(p: Path) {
    p != [] && p[0] == ".."
  }

  lemma {:induction false} NormPlain(comps: seq<string>)
    requires AllPlain(comps)
    ensures Norm(comps) == comps
  {
    if comps != [] {
      NormPlain(comps[..|comps| - 1]);
      assert comps == comps[..|comps| - 1] + [comps[|comps| - 1]];
    }
  }

  ghost predicate StepsAt(norm: seq<string> -> Path, front: seq<string>, c: string) {
    norm(front + [c]) == NormStep(norm(front), c)
  }

  lemma {:induction false} FoldAfter(norm: seq<string> -> Path, a: seq<string>, b: seq<string>, rest: seq<string>)
    requires forall front, c {:trigger StepsAt(norm, front, c)} :: StepsAt(norm, front, c)
    requires norm(a) == norm(b)
    ensures norm(a + rest) == norm(b + rest)
    decreases |rest|
  {
    if rest == [] {
      assert a + rest == a && b + rest == b;
    } else {
      var less, c := rest[..|rest| - 1], rest[|rest| - 1];
      FoldAfter(norm, a, b, less);
      assert StepsAt(norm, a + less, c) && StepsAt(norm, b + less, c);
      assert a + rest == a + less + [c] && b + rest == b + less + [c];
    }
  }

  /** What follows is normalised alike after fronts that are. */
  lemma NormAfter(a: seq<string>, b: seq<string>, rest: seq<string>)
    requires Norm(a) == Norm(b)
    ensures Norm(a + rest) == Norm(b + rest)
  {
    NormSteps();
    FoldAfter(Norm, a, b, rest);
  }

  lemma NormLast(front: seq<string>, c: string)
    ensures Norm(front + [c]) == NormStep(Norm(front), c)
  {
    var all := front + [c];
    assert all[..|all| - 1] == front && all[|all| - 1] == c;
  }

  lemma FoldUp(norm: seq<string> -> Path, at: Path, up: Path, rest: seq<string>)
    requires forall front, c {:trigger StepsAt(norm, front, c)} :: StepsAt(norm, front, c)
    requires at != [] && at[|at| - 1] != ".." && up == at[..|at| - 1] && norm(at) == at && norm(up) == up
    ensures norm(at + ([".."] + rest)) == norm(up + rest)
  {
    assert StepsAt(norm, at, "..");
    FoldAfter(norm, at + [".."], up, rest);
    assert at + [".."] + rest == at + ([".."] + rest);
  }

  /** `..` steps back over the plain component before it, whatever follows. */
  lemma {:induction false} NormUp(at: Path, rest: seq<string>)
    requires AllPlain(at) && at != []
    ensures Norm(at + ([".."] + rest)) == Norm(at[..|at| - 1] + rest)
  {
    NormSteps();
    NormPlain(at);
    NormPlain(at[..|at| - 1]);
    FoldUp(Norm, at, at[..|at| - 1], rest);
  }

  lemma FoldUpOn(norm: seq<string> -> Path, at: Path, up: Path, z: string)
    requires forall front, c {:trigger StepsAt(norm, front, c)} :: StepsAt(norm, front, c)
    requires at != [] && at[|at| - 1] != ".." && up == at[..|at| - 1] && norm(at) == at && z != ".."
    ensures norm(at + ["..", z]) == up + [z]
  {
    assert StepsAt(norm, at, "..") && StepsAt(norm, at + [".."], z);
    assert at + [".."] + [z] == at + ["..", z];
  }

  /** Back over a plain component and on to another. */
  lemma NormUpOn(at: Path, z: string)
    requires AllPlain(at) && at != [] && IsPlain(z)
    ensures Norm(at + ["..", z]) == at[..|at| - 1] + [z]
  {
    NormSteps();
    NormPlain(at);
    FoldUpOn(Norm, at, at[..|at| - 1], z);
  }

  lemma NormSteps()
    ensures forall front, c {:trigger StepsAt(Norm, front, c)} :: StepsAt(Norm, front, c)
  {
    forall front, c
      ensures StepsAt(Norm, front, c)
    {
      NormLast(front, c);
    }
  }

  /** Normalising a front part first changes nothing, as long as it stays inside. */
  lemma {:induction false} NormFront(a: seq<string>, b: seq<string>)
    requires AllPlain(Norm(a))
    ensures Norm(Norm(a) + b) == Norm(a + b)
  {
    NormPlain(Norm(a));
    NormAfter(Norm(a), a, b);
  }

  lemma PartsOfJoin(parts: seq<string>)
    requires |parts| >= 1 && forall i :: 0 <= i < |parts| ==> '/' !in parts[i] && parts[i] != "" && parts[i] != "."
    ensures Parts(Join(parts)) == parts
  {
    SplitOfJoin('/', parts);
    KeptNone(parts);
  }

  /** A path that starts by leaving the root stays outside it. */
  lemma {:induction false} NormEscapes(rest: seq<string>)
    ensures Escapes(Norm([".."] + rest))
  {
    var all := [".."] + rest;
    if rest == [] {
      assert all[..|all| - 1] == [];
    } else {
      NormEscapes(rest[..|rest| - 1]);
      assert all[..|all| - 1] == [".."] + rest[..|rest| - 1];
    }
  }

  /** Whatever `normpath` returns, `..` stands only at its front. */
  lemma {:induction false} NormShape(comps: seq<string>)
    requires forall i :: 0 <= i < |comps| ==> comps[i] != "" && comps[i] != "."
    ensures forall i, j :: 0 <= i < j < |Norm(comps)| && Norm(comps)[j] == ".." ==> Norm(comps)[i] == ".."
    ensures forall i :: 0 <= i < |Norm(comps)| ==> Norm(comps)[i] != "" && Norm(comps)[i] != "."
    ensures !Escapes(Norm(comps)) ==> AllPlain(Norm(comps))
  {
    if comps != [] {
      NormShape(comps[..|comps| - 1]);
    }
  }
}
