/** What it means to filter a list: the elements that pass, at increasing places, and no others. */
module Picking {

  ghost predicate Increasing(at: seq<nat>) {
    forall i, j :: 0 <= i < j < |at| ==> at[i] < at[j]
  }

  /** The elements of `all` at the places `at` are `some`. */
  ghost predicate Hold<T>(all: seq<T>, some: seq<T>, at: seq<nat>) {
    |at| == |some| && forall i :: 0 <= i < |at| ==> at[i] < |all| && all[at[i]] == some[i]
  }

  /** `at` are exactly the places of the elements that pass. */
  ghost predicate PassAt<T>(all: seq<T>, keep: T -> bool, at: seq<nat>) {
    forall k: nat :: k in at <==> k < |all| && keep(all[k])
  }

  /** `some` are the elements of `all` that pass, in order. */
  ghost predicate Picked<T>(all: seq<T>, keep: T -> bool, some: seq<T>) {
    exists at: seq<nat> :: Increasing(at) && Hold(all, some, at) && PassAt(all, keep, at)
  }

  lemma PickedNone<T>(keep: T -> bool)
    ensures Picked([], keep, [])
  {
    var all: seq<T>, none: seq<nat> := [], [];
    assert Increasing(none) && Hold(all, all, none) && PassAt(all, keep, none);
  }

  /** One more element joins exactly when it passes. */
  lemma PickedMore<T>(all: seq<T>, keep: T -> bool, some: seq<T>, last: T)
    requires Picked(all, keep, some)
    ensures Picked(all + [last], keep, some + if keep(last) then [last] else [])
  {
    var at: seq<nat> :| Increasing(at) && Hold(all, some, at) && PassAt(all, keep, at);
    if keep(last) {
      PlaceAdded(all, some, last, at);
      PassMore(all, keep, last, at);
      assert Picked(all + [last], keep, some + [last]);
    } else {
      HoldLonger(all, some, last, at);
      PassNoMore(all, keep, last, at);
      assert some + [] == some;
    }
  }

  lemma PlaceAdded<T>(all: seq<T>, some: seq<T>, last: T, at: seq<nat>)
    requires Increasing(at) && Hold(all, some, at)
    ensures Increasing(at + [|all|]) && Hold(all + [last], some + [last], at + [|all|])
  {
    var more := at + [|all|];
    assert forall i :: 0 <= i < |at| ==> more[i] == at[i] < |all|;
  }

  lemma HoldLonger<T>(all: seq<T>, some: seq<T>, last: T, at: seq<nat>)
    requires Hold(all, some, at)
    ensures Hold(all + [last], some, at)
  {
  }

  lemma PassMore<T>(all: seq<T>, keep: T -> bool, last: T, at: seq<nat>)
    requires PassAt(all, keep, at) && keep(last)
    ensures PassAt(all + [last], keep, at + [|all|])
  {
    forall k: nat
      ensures k in at + [|all|] <==> k < |all| + 1 && keep((all + [last])[k])
    {
      assert k in at + [|all|] <==> k in at || k == |all|;
      assert k in at <==> k < |all| && keep(all[k]);
    }
  }

  lemma PassNoMore<T>(all: seq<T>, keep: T -> bool, last: T, at: seq<nat>)
    requires PassAt(all, keep, at) && !keep(last)
    ensures PassAt(all + [last], keep, at)
  {
    forall k: nat
      ensures k in at <==> k < |all| + 1 && keep((all + [last])[k])
    {
      assert k in at <==> k < |all| && keep(all[k]);
    }
  }

  /** Increasing places are determined by which they are. */
  lemma {:induction false} SamePlaces(a: seq<nat>, b: seq<nat>)
    requires Increasing(a) && Increasing(b) && forall k: nat :: k in a <==> k in b
    ensures a == b
    decreases |a|
  {
    assert a != [] ==> a[0] in a;
    assert b != [] ==> b[0] in b;
    if a != [] {
      var x, y := a[|a| - 1], b[|b| - 1];
      LastIsLargest(a);
      LastIsLargest(b);
      assert x in b && y in a;
      FrontPlaces(a);
      FrontPlaces(b);
      var p, q := a[..|a| - 1], b[..|b| - 1];
      forall k: nat
        ensures k in p <==> k in q
      {
        assert k in p <==> k in a && k != x;
        assert k in q <==> k in b && k != y;
      }
      SamePlaces(p, q);
      assert a == p + [x] && b == q + [x];
    }
  }

  lemma LastIsLargest(a: seq<nat>)
    requires Increasing(a)
    ensures forall k: nat :: k in a ==> k <= a[|a| - 1]
  {
  }

  lemma FrontPlaces(a: seq<nat>)
    requires Increasing(a) && a != []
    ensures forall k: nat :: k in a[..|a| - 1] <==> k in a && k != a[|a| - 1]
    ensures Increasing(a[..|a| - 1])
  {
    assert a == a[..|a| - 1] + [a[|a| - 1]];
  }

  /** There is only one way to filter a list. */
  lemma PickedOnce<T>(all: seq<T>, keep: T -> bool, some: seq<T>, other: seq<T>)
    requires Picked(all, keep, some) && Picked(all, keep, other)
    ensures some == other
  {
    var a: seq<nat> :| Increasing(a) && Hold(all, some, a) && PassAt(all, keep, a);
    var b: seq<nat> :| Increasing(b) && Hold(all, other, b) && PassAt(all, keep, b);
    SamePlaces(a, b);
  }
}
