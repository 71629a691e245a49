/** Lists of names under the lexicographic order that `Array.prototype.sort` applies to strings. */
module NameOrder {

  function Elements(names: seq<string>): set<string> {
    set n | n in names
  }

  predicate Less(a: string, b: string) {
    b != [] && (a == [] || a[0] < b[0] || (a[0] == b[0] && Less(a[1..], b[1..])))
  }

  ghost predicate Sorted(names: seq<string>) {
    forall i, j :: 0 <= i < j < |names| ==> Less(names[i], names[j])
  }

  /** In a dictionary `a` stands before `b`: it is a beginning of it, or smaller where they first differ. */
  ghost predicate Precedes(a: string, b: string) {
    a < b || exists k :: 0 <= k < |a| && k < |b| && a[..k] == b[..k] && a[k] < b[k]
  }

  lemma {:induction false} LessMeans(a: string, b: string)
    ensures Less(a, b) <==> Precedes(a, b)
  {
    if a != [] && b != [] {
      if a[0] == b[0] {
        LessMeans(a[1..], b[1..]);
        if Less(a, b) {
          PrecedesLonger(a, b);
        } else if Precedes(a, b) {
          PrecedesShorter(a, b);
        }
      } else {
        assert a[..0] == b[..0];
      }
    }
  }

  lemma PrecedesLonger(a: string, b: string)
    requires a != [] && b != [] && a[0] == b[0] && Precedes(a[1..], b[1..])
    ensures Precedes(a, b)
  {
    var x, y := a[1..], b[1..];
    if !(x < y) {
      var k :| 0 <= k < |x| && k < |y| && x[..k] == y[..k] && x[k] < y[k];
      assert a[..k + 1] == [a[0]] + x[..k] && b[..k + 1] == [b[0]] + y[..k];
      assert a[k + 1] < b[k + 1];
    }
  }

  lemma PrecedesShorter(a: string, b: string)
    requires a != [] && b != [] && a[0] == b[0] && Precedes(a, b)
    ensures Precedes(a[1..], b[1..])
  {
    if !(a < b) {
      var k :| 0 <= k < |a| && k < |b| && a[..k] == b[..k] && a[k] < b[k];
      assert a[..k][1..] == a[1..][..k - 1] && b[..k][1..] == b[1..][..k - 1];
      assert a[1..][k - 1] < b[1..][k - 1];
    }
  }

  ghost predicate InDictionaryOrder(names: seq<string>) {
    forall i, j :: 0 <= i < j < |names| ==> Precedes(names[i], names[j])
  }

  lemma SortedMeans(names: seq<string>)
    ensures Sorted(names) <==> InDictionaryOrder(names)
  {
    forall i, j | 0 <= i < j < |names|
      ensures Less(names[i], names[j]) <==> Precedes(names[i], names[j])
    {
      LessMeans(names[i], names[j]);
    }
  }

  lemma {:induction false} LessIsTotal(a: string, b: string)
    ensures Less(a, b) || a == b || Less(b, a)
    ensures !(Less(a, b) && Less(b, a)) && !Less(a, a)
  {
    if a != [] && b != [] && a[0] == b[0] {
      LessIsTotal(a[1..], b[1..]);
      assert a == [a[0]] + a[1..] && b == [b[0]] + b[1..];
    }
    if a != [] {
      LessIsTotal(a[1..], a[1..]);
    }
  }

  lemma {:induction false} LessIsTransitive(a: string, b: string, c: string)
    requires Less(a, b) && Less(b, c)
    ensures Less(a, c)
  {
    if a != [] && a[0] == b[0] == c[0] {
      LessIsTransitive(a[1..], b[1..], c[1..]);
    }
  }

  /** The place of `n` in a sorted list that does not hold it. */
  method FindPlace(names: seq<string>, n: string) returns (k: nat)
    requires Sorted(names) && n !in names
    ensures k <= |names|
    ensures forall i :: 0 <= i < k ==> Less(names[i], n)
    ensures forall i :: k <= i < |names| ==> Less(n, names[i])
  {
    k := 0;
    while k < |names| && Less(names[k], n)
      invariant k <= |names|
      invariant forall i :: 0 <= i < k ==> Less(names[i], n)
    {
      k := k + 1;
    }
    if k < |names| {
      LessIsTotal(names[k], n);
      forall i | k < i < |names|
        ensures Less(n, names[i])
      {
        LessIsTransitive(n, names[k], names[i]);
      }
    }
  }

  method SortNames(s: set<string>) returns (r: seq<string>)
    ensures Sorted(r) && InDictionaryOrder(r) && Elements(r) == s
  {
    r := [];
    var todo := s;
    while todo != {}
      invariant Sorted(r) && todo <= s && Elements(r) == s - todo
      decreases todo
    {
      var n :| n in todo;
      var k := FindPlace(r, n);
      ghost var was := r;
      assert was == was[..k] + was[k..];
      r := r[..k] + [n] + r[k..];
      assert Elements(r) == Elements(was) + {n};
      todo := todo - {n};
    }
    SortedMeans(r);
  }

  /** A strictly increasing list is determined by its elements. */
  lemma {:induction false} SortedIsUnique(a: seq<string>, b: seq<string>)
    requires Sorted(a) && Sorted(b) && Elements(a) == Elements(b)
    ensures a == b
  {
    if b != [] {
      assert b[0] in Elements(b);
    }
    if a != [] {
      assert a[0] in Elements(a);
      FirstIsLeast(a, b[0]);
      FirstIsLeast(b, a[0]);
      LessIsTotal(a[0], b[0]);
      TailElements(a);
      TailElements(b);
      SortedIsUnique(a[1..], b[1..]);
    }
  }

  lemma FirstIsLeast(a: seq<string>, n: string)
    requires Sorted(a) && n in a
    ensures n == a[0] || Less(a[0], n)
  {
  }

  lemma TailElements(a: seq<string>)
    requires Sorted(a) && a != []
    ensures Elements(a[1..]) == Elements(a) - {a[0]}
  {
    LessIsTotal(a[0], a[0]);
    assert a == [a[0]] + a[1..];
  }
}
