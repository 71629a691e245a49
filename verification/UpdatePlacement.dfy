/** `toAfterUser`: moves each configuration update behind the user message it precedes. */
module UpdatePlacement {
  import opened Outcome

  datatype Item = Update(config: string) | UserMessage(text: string) | OtherItem(text: string)

  /** The output list and the pending slot after some input. */
  datatype Slot = Slot(out: seq<Item>, pending: Option<Item>)

  function Put(s: Slot, item: Item): Slot {
    if item.Update? then s.(pending := Some(item))
    else if s.pending.Some? && item.UserMessage? then Slot(s.out + [item] + [s.pending.value], None)
    else s.(out := s.out + [item])
  }

  function Fill(input: seq<Item>): Slot {
    if input == [] then Slot([], None) else Put(Fill(input[..|input| - 1]), input[|input| - 1])
  }

  /** The output with the pending update, if any, at its end. */
  function Flush(s: Slot): seq<Item> {
    if s.pending.Some? then s.out + [s.pending.value] else s.out
  }

  function AfterUser(input: seq<Item>): seq<Item> {
    Flush(Fill(input))
  }

  method ToAfterUser(input: seq<Item>) returns (out: seq<Item>)
    ensures out == AfterUser(input)
  {
    out := [];
    var pending: Option<Item> := None;
    for i := 0 to |input|
      invariant Slot(out, pending) == Fill(input[..i])
    {
      assert input[..i + 1][..i] == input[..i];
      var item := input[i];
      if item.Update? {
        pending := Some(item);
        continue;
      }
      out := out + [item];
      if pending.Some? && item.UserMessage? {
        out := out + [pending.value];
        pending := None;
      }
    }
    assert input[..|input|] == input;
    if pending.Some? {
      out := out + [pending.value];
    }
  }

  /** The items other than updates, in order. */
  function Others(items: seq<Item>): seq<Item> {
    if items == [] then []
    else Others(items[..|items| - 1]) + if items[|items| - 1].Update? then [] else [items[|items| - 1]]
  }

  /** The updates, in order. */
  function Updates(items: seq<Item>): seq<Item> {
    if items == [] then []
    else Updates(items[..|items| - 1]) + if items[|items| - 1].Update? then [items[|items| - 1]] else []
  }

  /** The update in force at the end of the items. */
  function InForce(items: seq<Item>): Option<Item> {
    if items == [] then None
    else if items[|items| - 1].Update? then Some(items[|items| - 1])
    else InForce(items[..|items| - 1])
  }

  lemma Append(items: seq<Item>, item: Item)
    ensures Others(items + [item]) == Others(items) + if item.Update? then [] else [item]
    ensures Updates(items + [item]) == Updates(items) + if item.Update? then [item] else []
    ensures InForce(items + [item]) == if item.Update? then Some(item) else InForce(items)
  {
    assert (items + [item])[..|items|] == items;
  }

  /** The slot holds what the loop keeps of `input`: its other items, and its update in force. */
  ghost predicate Keeps(s: Slot, others: seq<Item>, inForce: Option<Item>) {
    && Others(s.out) == others
    && (if s.pending.Some? then s.pending.value.Update? && inForce == s.pending else inForce == InForce(s.out))
  }

  lemma PutKeeps(s: Slot, item: Item, others: seq<Item>, inForce: Option<Item>)
    requires Keeps(s, others, inForce)
    ensures Keeps(Put(s, item), others + (if item.Update? then [] else [item]), if item.Update? then Some(item) else inForce)
  {
    if item.Update? {
      assert others + [] == others;
    } else {
      Append(s.out, item);
      if s.pending.Some? && item.UserMessage? {
        Append(s.out + [item], s.pending.value);
        assert others + [item] + [] == others + [item];
      }
    }
  }

  lemma {:induction false} FillKeeps(input: seq<Item>)
    ensures Keeps(Fill(input), Others(input), InForce(input))
  {
    if input != [] {
      FillKeeps(input[..|input| - 1]);
      PutKeeps(Fill(input[..|input| - 1]), input[|input| - 1], Others(input[..|input| - 1]), InForce(input[..|input| - 1]));
    }
  }

  lemma {:induction false} FillGrows(input: seq<Item>, n: nat)
    requires n <= |input|
    ensures Fill(input[..n]).out <= Fill(input).out
  {
    if n == |input| {
      assert input[..n] == input;
    } else {
      var front := input[..|input| - 1];
      FillGrows(front, n);
      assert front[..n] == input[..n];
    }
  }

  /** The other items keep their order, and the last update is in force at the end. */
  lemma OrderAndEndKept(input: seq<Item>)
    ensures Others(AfterUser(input)) == Others(input)
    ensures InForce(AfterUser(input)) == InForce(input)
  {
    FillKeeps(input);
    var s := Fill(input);
    if s.pending.Some? {
      Append(s.out, s.pending.value);
      assert Others(input) + [] == Others(input);
    }
  }

  /**
    * For every user message of the input, the output has a point just after that message, and after
    * the update moved behind it, where the same items have gone by and the same update is in force.
    */
  lemma {:induction false} UserSeesSameUpdate(input: seq<Item>, n: nat) returns (shown: seq<Item>)
    requires n < |input| && input[n].UserMessage?
    ensures shown <= AfterUser(input)
    ensures Others(shown) == Others(input[..n + 1]) && InForce(shown) == InForce(input[..n + 1])
    ensures if Waiting(input[..n])
            then |shown| >= 2 && shown[|shown| - 2] == input[n] && Some(shown[|shown| - 1]) == InForce(input[..n])
            else shown != [] && shown[|shown| - 1] == input[n]
  {
    PendingIsWaiting(input[..n]);
    FillKeeps(input[..n]);
    var upTo := input[..n + 1];
    assert upTo[..n] == input[..n] && upTo[|upTo| - 1] == input[n];
    shown := Fill(upTo).out;
    FillGrows(input, n + 1);
    FillKeeps(upTo);
    assert Fill(upTo).pending.None?;
  }

  /** Every update but a last one stands directly behind a user message. */
  ghost predicate BehindUsers(out: seq<Item>) {
    forall k :: 0 <= k < |out| && out[k].Update? ==> k > 0 && out[k - 1].UserMessage?
  }

  lemma {:induction false} FilledBehindUsers(input: seq<Item>)
    ensures BehindUsers(Fill(input).out)
  {
    if input != [] {
      FilledBehindUsers(input[..|input| - 1]);
    }
  }

  /** In the output every update stands directly behind a user message, unless it is the last item, for want of one. */
  lemma UpdatesBehindUsers(input: seq<Item>)
    ensures var out := AfterUser(input);
            if Waiting(input) then out != [] && out[|out| - 1].Update? && BehindUsers(out[..|out| - 1]) else BehindUsers(out)
  {
    FilledBehindUsers(input);
    PendingIsWaiting(input);
    FillKeeps(input);
    var s := Fill(input);
    if s.pending.Some? {
      assert (s.out + [s.pending.value])[..|s.out|] == s.out;
    }
  }

  // Which updates survive.

  /** Between any two updates stands a user message. */
  ghost predicate Separated(input: seq<Item>) {
    forall i, j :: 0 <= i < j < |input| && input[i].Update? && input[j].Update? ==> HasUser(input, i, j)
  }

  ghost predicate HasUser(input: seq<Item>, i: int, j: int) {
    exists k :: 0 <= i < k < j <= |input| && input[k].UserMessage?
  }

  /** Some update has had no user message after it yet. */
  ghost predicate Waiting(input: seq<Item>) {
    exists i :: 0 <= i < |input| && input[i].Update? && !HasUser(input, i, |input|)
  }

  lemma UserExtends(input: seq<Item>, i: int, j: int)
    requires 0 <= i < j <= |input|
    ensures HasUser(input, i, j) <==> HasUser(input[..j], i, j)
  {
    if HasUser(input, i, j) {
      var k :| i < k < j && input[k].UserMessage?;
      assert input[..j][k].UserMessage?;
    }
    if HasUser(input[..j], i, j) {
      var k :| i < k < j && input[..j][k].UserMessage?;
      assert input[k].UserMessage?;
    }
  }

  lemma WaitingStep(input: seq<Item>)
    requires input != []
    ensures var front, last := input[..|input| - 1], input[|input| - 1];
            Waiting(input) <==> last.Update? || (Waiting(front) && !last.UserMessage?)
  {
    var n := |input| - 1;
    var front, last := input[..n], input[n];
    if last.Update? {
      assert input[n].Update? && !HasUser(input, n, |input|);
    } else if last.UserMessage? {
      forall i | 0 <= i < |input| && input[i].Update?
        ensures HasUser(input, i, |input|)
      {
        assert input[n].UserMessage?;
      }
    } else {
      forall i | 0 <= i < n
        ensures HasUser(input, i, |input|) <==> HasUser(front, i, n)
      {
        UserExtends(input, i, n);
      }
      if Waiting(front) {
        var i :| 0 <= i < n && front[i].Update? && !HasUser(front, i, n);
        assert input[i].Update?;
      }
      if Waiting(input) {
        var i :| 0 <= i < |input| && input[i].Update? && !HasUser(input, i, |input|);
        assert front[i].Update?;
      }
    }
  }

  lemma SeparatedStep(input: seq<Item>)
    requires input != []
    ensures var front, last := input[..|input| - 1], input[|input| - 1];
            Separated(input) <==> Separated(front) && (last.Update? ==> !Waiting(front))
  {
    var n := |input| - 1;
    var front, last := input[..n], input[n];
    forall i, j | 0 <= i < j < n
      ensures HasUser(input, i, j) <==> HasUser(front, i, j)
    {
      UserExtends(input, i, j);
      UserExtends(front, i, j);
      assert front[..j] == input[..j];
    }
    forall i | 0 <= i < n
      ensures HasUser(input, i, n) <==> HasUser(front, i, n)
    {
      UserExtends(input, i, n);
    }
    if Separated(input) {
      forall i, j | 0 <= i < j < n && front[i].Update? && front[j].Update?
        ensures HasUser(front, i, j)
      {
        assert input[i].Update? && input[j].Update?;
      }
    }
  }

  lemma {:induction false} PendingIsWaiting(input: seq<Item>)
    ensures Fill(input).pending.Some? <==> Waiting(input)
  {
    if input != [] {
      PendingIsWaiting(input[..|input| - 1]);
      WaitingStep(input);
    }
  }

  /** The updates of the output, with the pending one, are those of the input exactly when none was overwritten. */
  lemma {:induction false} FillUpdates(input: seq<Item>)
    ensures |Updates(Flush(Fill(input)))| <= |Updates(input)|
    ensures Updates(Flush(Fill(input))) == Updates(input) <==> Separated(input)
  {
    if input != [] {
      var front, item := input[..|input| - 1], input[|input| - 1];
      FillUpdates(front);
      FillKeeps(front);
      PendingIsWaiting(front);
      SeparatedStep(input);
      PutUpdates(Fill(front), item);
      SameTail(Updates(Flush(Fill(front))), Updates(front), item);
    }
  }

  lemma SameTail(a: seq<Item>, b: seq<Item>, item: Item)
    ensures a + [item] == b + [item] <==> a == b
  {
    assert (a + [item])[..|a|] == a && (b + [item])[..|b|] == b;
  }

  /** Placing an item changes the updates kept only by adding one, or by overwriting the pending one. */
  lemma PutUpdates(s: Slot, item: Item)
    requires s.pending.Some? ==> s.pending.value.Update?
    ensures var before, after := Updates(Flush(s)), Updates(Flush(Put(s, item)));
            if !item.Update? then after == before
            else if s.pending.None? then after == before + [item]
            else |after| == |before|
  {
    var kept := Updates(s.out);
    Append(s.out, item);
    if s.pending.Some? {
      Append(s.out, s.pending.value);
      if !item.Update? {
        Append(s.out + [item], s.pending.value);
      }
    }
    assert kept + [] == kept;
  }

  /** No update is lost exactly when any two updates have a user message between them. */
  lemma UpdatesKeptExactly(input: seq<Item>)
    ensures Updates(AfterUser(input)) == Updates(input) <==> Separated(input)
  {
    FillUpdates(input);
  }

  /** The smallest loss: of two updates in a row, the first is overwritten. */
  lemma OverwrittenUpdate(a: string, b: string, text: string)
    ensures var input := [Update(a), Update(b), UserMessage(text)];
            AfterUser(input) == [UserMessage(text), Update(b)]
  {
    var input := [Update(a), Update(b), UserMessage(text)];
    assert input[..2] == [Update(a), Update(b)] && input[..2][..1] == [Update(a)] && [Update(a)][..0] == [];
    assert Fill([Update(a)]) == Slot([], Some(Update(a)));
    assert Fill(input[..2]) == Slot([], Some(Update(b)));
  }
}
