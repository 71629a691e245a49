/** The wire check of the cold-restart preload: every tool round is answered in the next user message, results first. */
module ToolRounds {
  import opened Outcome

  datatype Role = User | Assistant | System

  datatype Block = ToolUse(id: string) | ToolResult(id: string) | Plain

  datatype Message = Message(role: Role, content: seq<Block>)

  datatype Refusal = MissingBefore(role: Role) | UnexpectedResult(id: string) | InputBeforeResults | IncompleteRound | MissingResults

  /** The inner loop: the ids still pending after the blocks of one message. */
  function ScanBlocks(role: Role, pending: set<string>, blocks: seq<Block>): Result<set<string>, Refusal>
    decreases |blocks|
  {
    if blocks == [] then Ok(pending)
    else
      match blocks[0]
      case ToolUse(id) => ScanBlocks(role, pending + {id}, blocks[1..])
      case ToolResult(id) =>
        if id !in pending then Err(UnexpectedResult(id)) else ScanBlocks(role, pending - {id}, blocks[1..])
      case Plain =>
        if role == User && pending != {} then Err(InputBeforeResults) else ScanBlocks(role, pending, blocks[1..])
  }

  function ScanMessage(m: Message, pending: set<string>): Result<set<string>, Refusal> {
    if m.role != User && pending != {} then Err(MissingBefore(m.role))
    else
      match ScanBlocks(m.role, pending, m.content)
      case Err(e) => Err(e)
      case Ok(left) => if m.role == User && left != {} then Err(IncompleteRound) else Ok(left)
  }

  function Scan(messages: seq<Message>, pending: set<string>): Result<(), Refusal>
    decreases |messages|
  {
    if messages == [] then (if pending != {} then Err(MissingResults) else Ok(()))
    else
      match ScanMessage(messages[0], pending)
      case Err(e) => Err(e)
      case Ok(left) => Scan(messages[1..], left)
  }

  /** The nested loops as written, over one mutable `pending` set. */
  method CheckRounds(messages: seq<Message>) returns (r: Result<(), Refusal>)
    ensures r == Scan(messages, {})
  {
    var pending: set<string> := {};
    for i := 0 to |messages|
      invariant Scan(messages, {}) == Scan(messages[i..], pending)
    {
      var m := messages[i];
      assert messages[i..][1..] == messages[i + 1..];
      if m.role != User && pending != {} {
        return Err(MissingBefore(m.role));
      }
      ghost var before := pending;
      for j := 0 to |m.content|
        invariant ScanBlocks(m.role, before, m.content) == ScanBlocks(m.role, pending, m.content[j..])
      {
        assert m.content[j..][1..] == m.content[j + 1..];
        match m.content[j]
        case ToolUse(id) =>
          pending := pending + {id};
        case ToolResult(id) =>
          if id !in pending {
            return Err(UnexpectedResult(id));
          }
          pending := pending - {id};
        case Plain =>
          if m.role == User && pending != {} {
            return Err(InputBeforeResults);
          }
      }
      assert m.content[|m.content|..] == [];
      if m.role == User && pending != {} {
        return Err(IncompleteRound);
      }
    }
    assert messages[|messages|..] == [];
    return if pending != {} then Err(MissingResults) else Ok(());
  }

  // The rule the check stands for.

  /** Tool calls come from the assistant only, results from the user only. */
  ghost predicate Disciplined(messages: seq<Message>) {
    forall i :: 0 <= i < |messages| ==> WellRoled(messages[i])
  }

  ghost predicate WellRoled(m: Message) {
    && (m.role != Assistant ==> forall k :: 0 <= k < |m.content| ==> !m.content[k].ToolUse?)
    && (m.role != User ==> NoResults(m.content))
  }

  ghost predicate NoResults(blocks: seq<Block>) {
    forall k :: 0 <= k < |blocks| ==> !blocks[k].ToolResult?
  }

  function CallIds(blocks: seq<Block>): set<string> {
    set b | b in blocks && b.ToolUse? :: b.id
  }

  function ResultIds(blocks: seq<Block>): set<string> {
    set b | b in blocks && b.ToolResult? :: b.id
  }

  /** The blocks open with one result for each id in `ids`, and hold no other result. */
  ghost predicate OpensWith(blocks: seq<Block>, ids: set<string>) {
    && |ids| <= |blocks|
    && (forall k :: 0 <= k < |ids| ==> blocks[k].ToolResult?)
    && ResultIds(blocks[..|ids|]) == ids
    && NoResults(blocks[|ids|..])
  }

  /** The ids that message `i` has to answer. */
  ghost function Owed(messages: seq<Message>, i: nat): set<string>
    requires i <= |messages|
  {
    if i > 0 && messages[i - 1].role == Assistant then CallIds(messages[i - 1].content) else {}
  }

  ghost predicate Answers(m: Message, owed: set<string>) {
    if owed == {} then NoResults(m.content) else m.role == User && OpensWith(m.content, owed)
  }

  /**
    * Every assistant message with tool calls is followed at once by a user message that opens with
    * results for exactly those calls, each once, before anything else; no result stands elsewhere.
    */
  ghost predicate RoundsAnswered(messages: seq<Message>) {
    && (forall i :: 0 <= i < |messages| ==> Answers(messages[i], Owed(messages, i)))
    && Owed(messages, |messages|) == {}
  }

  lemma CallIdsCons(b: Block, rest: seq<Block>)
    ensures CallIds([b] + rest) == (if b.ToolUse? then {b.id} else {}) + CallIds(rest)
  {
    assert forall x :: x in [b] + rest <==> x == b || x in rest;
  }

  lemma ResultIdsCons(b: Block, rest: seq<Block>)
    ensures ResultIds([b] + rest) == (if b.ToolResult? then {b.id} else {}) + ResultIds(rest)
  {
    assert forall x :: x in [b] + rest <==> x == b || x in rest;
  }

  lemma {:induction false} SpeakerScan(role: Role, pending: set<string>, blocks: seq<Block>)
    requires role != User && NoResults(blocks)
    ensures ScanBlocks(role, pending, blocks) == Ok(pending + CallIds(blocks))
    decreases |blocks|
  {
    if blocks == [] {
      assert pending + CallIds([]) == pending;
    } else {
      var b, rest := blocks[0], blocks[1..];
      assert blocks == [b] + rest;
      CallIdsCons(b, rest);
      var next := if b.ToolUse? then pending + {b.id} else pending;
      SpeakerScan(role, next, rest);
      assert next + CallIds(rest) == pending + CallIds(blocks);
    }
  }

  /** A user message is passed with nothing pending exactly when it opens with results for what was pending. */
  lemma {:induction false} UserScan(pending: set<string>, blocks: seq<Block>)
    requires forall k :: 0 <= k < |blocks| ==> !blocks[k].ToolUse?
    ensures ScanBlocks(User, pending, blocks) == Ok({}) <==> OpensWith(blocks, pending)
    ensures ScanBlocks(User, pending, blocks).Ok? ==> ScanBlocks(User, pending, blocks).value <= pending
    decreases |blocks|
  {
    if blocks == [] {
      assert |pending| == 0 <==> pending == {};
    } else {
      assert blocks == [blocks[0]] + blocks[1..];
      match blocks[0]
      case ToolResult(id) =>
        if id in pending {
          UserScan(pending - {id}, blocks[1..]);
          OpensOneLess(blocks, pending);
        } else {
          NotOpened(blocks, pending);
        }
      case Plain =>
        UserScan(pending, blocks[1..]);
        assert pending == {} || !blocks[0].ToolResult?;
        assert blocks[..0] == [] && blocks[0..] == blocks && blocks[1..][..0] == [] && blocks[1..][0..] == blocks[1..];
    }
  }

  lemma NotOpened(blocks: seq<Block>, ids: set<string>)
    requires blocks != [] && blocks[0].ToolResult? && blocks[0].id !in ids
    ensures !OpensWith(blocks, ids)
  {
    assert |ids| == 0 ==> blocks[|ids|..] == blocks;
    assert 0 < |ids| <= |blocks| ==> blocks[0] in blocks[..|ids|];
  }

  lemma OpensOneLess(blocks: seq<Block>, ids: set<string>)
    requires blocks != [] && blocks[0].ToolResult? && blocks[0].id in ids
    ensures OpensWith(blocks, ids) <==> OpensWith(blocks[1..], ids - {blocks[0].id})
  {
    if OpensWith(blocks, ids) {
      DropFirstResult(blocks, ids);
    }
    if OpensWith(blocks[1..], ids - {blocks[0].id}) {
      AddFirstResult(blocks, ids);
    }
  }

  lemma DropFirstResult(blocks: seq<Block>, ids: set<string>)
    requires blocks != [] && blocks[0].ToolResult? && blocks[0].id in ids && OpensWith(blocks, ids)
    ensures OpensWith(blocks[1..], ids - {blocks[0].id})
  {
    var rest, n := blocks[1..], |ids|;
    SplitFirst(blocks, n);
    FrontIds(blocks[0], rest[..n - 1], ids);
    assert |ids - {blocks[0].id}| == n - 1;
  }

  lemma FrontIds(b: Block, front: seq<Block>, ids: set<string>)
    requires b.ToolResult? && ResultIds([b] + front) == ids && |ids| == |front| + 1
    ensures ResultIds(front) == ids - {b.id}
  {
    assert ([b] + front)[1..] == front;
    ResultsDiffer([b] + front);
    ResultIdsCons(b, front);
  }

  lemma AddFirstResult(blocks: seq<Block>, ids: set<string>)
    requires blocks != [] && blocks[0].ToolResult? && blocks[0].id in ids && OpensWith(blocks[1..], ids - {blocks[0].id})
    ensures OpensWith(blocks, ids)
  {
    var rest, less := blocks[1..], ids - {blocks[0].id};
    OneIdLess(ids, blocks[0].id);
    SplitFirst(blocks, |ids|);
    WholeIds(blocks[0], rest[..|less|], ids);
    forall k | 0 <= k < |ids|
      ensures blocks[k].ToolResult?
    {
      assert k > 0 ==> blocks[k] == rest[k - 1];
    }
  }

  lemma OneIdLess(ids: set<string>, id: string)
    requires id in ids
    ensures |ids - {id}| == |ids| - 1
  {
  }

  lemma WholeIds(b: Block, front: seq<Block>, ids: set<string>)
    requires b.ToolResult? && b.id in ids && ResultIds(front) == ids - {b.id}
    ensures ResultIds([b] + front) == ids
  {
    ResultIdsCons(b, front);
    assert {b.id} + (ids - {b.id}) == ids;
  }

  lemma SplitFirst(blocks: seq<Block>, n: nat)
    requires 1 <= n <= |blocks|
    ensures blocks[..n] == [blocks[0]] + blocks[1..][..n - 1] && blocks[n..] == blocks[1..][n - 1..]
    ensures blocks[..n][1..] == blocks[1..][..n - 1]
  {
  }

  /** As many results as ids they cover: no id comes twice. */
  lemma ResultsDiffer(blocks: seq<Block>)
    requires blocks != [] && |ResultIds(blocks)| == |blocks| && blocks[0].ToolResult?
    ensures blocks[0].id !in ResultIds(blocks[1..])
  {
    var tail := blocks[1..];
    ResultCount(tail);
    assert blocks == [blocks[0]] + tail;
    ResultIdsCons(blocks[0], tail);
    assert blocks[0].id in ResultIds(tail) ==> ResultIds(blocks) == ResultIds(tail);
  }

  lemma {:induction false} ResultCount(blocks: seq<Block>)
    ensures |ResultIds(blocks)| <= |blocks|
  {
    if blocks != [] {
      var tail := blocks[1..];
      ResultCount(tail);
      assert blocks == [blocks[0]] + tail;
      ResultIdsCons(blocks[0], tail);
      if blocks[0].ToolResult? && blocks[0].id in ResultIds(tail) {
        assert ResultIds(blocks) == ResultIds(tail);
      }
    }
  }

  /** One message: passed exactly when it answers what is owed, and then what it calls for is owed next. */
  lemma MessageScan(m: Message, owed: set<string>)
    requires WellRoled(m)
    ensures ScanMessage(m, owed).Ok? <==> Answers(m, owed)
    ensures ScanMessage(m, owed).Ok? ==> ScanMessage(m, owed).value == if m.role == Assistant then CallIds(m.content) else {}
  {
    match m.role
    case User =>
      UserScan(owed, m.content);
      if owed == {} {
        assert m.content[..0] == [] && m.content[0..] == m.content;
      }
    case Assistant =>
      SpeakerScan(Assistant, owed, m.content);
    case System =>
      SpeakerScan(System, owed, m.content);
      assert CallIds(m.content) == {};
  }

  /** Every message from `i` on answers what it owes, given `owed` for message `i`. */
  ghost predicate AnsweredFrom(messages: seq<Message>, owed: set<string>) {
    if messages == [] then owed == {}
    else Answers(messages[0], owed)
         && AnsweredFrom(messages[1..], if messages[0].role == Assistant then CallIds(messages[0].content) else {})
  }

  lemma {:induction false} ScanIsAnswered(messages: seq<Message>, owed: set<string>)
    requires Disciplined(messages)
    ensures Scan(messages, owed).Ok? <==> AnsweredFrom(messages, owed)
  {
    if messages != [] {
      var m := messages[0];
      MessageScan(m, owed);
      ScanIsAnswered(messages[1..], if m.role == Assistant then CallIds(m.content) else {});
    }
  }

  lemma {:induction false} AnsweredSuffix(messages: seq<Message>, i: nat)
    requires i <= |messages|
    ensures AnsweredFrom(messages[i..], Owed(messages, i))
            <==> (forall k :: i <= k < |messages| ==> Answers(messages[k], Owed(messages, k))) && Owed(messages, |messages|) == {}
    decreases |messages| - i
  {
    if i < |messages| {
      AnsweredSuffix(messages, i + 1);
      assert messages[i..][1..] == messages[i + 1..];
    } else {
      assert messages[i..] == [];
    }
  }

  /** On role-disciplined histories the scan accepts exactly those whose rounds are answered. */
  lemma ScanAcceptsExactly(messages: seq<Message>)
    requires Disciplined(messages)
    ensures Scan(messages, {}).Ok? <==> RoundsAnswered(messages)
  {
    ScanIsAnswered(messages, {});
    AnsweredSuffix(messages, 0);
    assert messages[0..] == messages;
  }
}
