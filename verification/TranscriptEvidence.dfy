/** `persisted_evidence`: the scan that accepts a persisted transcript and its provider-state records. */
module TranscriptEvidence {
  import opened Outcome
  import opened Text
  import opened Picking

  datatype Call = Call(name: string, input: string)

  datatype Block =
    | ToolUse(id: string, call: Call)
    | ToolResult(toolUseId: string, isError: bool, denied: bool, content: string)
    | Text(text: string)
    | OtherBlock

  datatype RecordKind = Assistant | User | OtherKind

  /** One transcript line. A missing or non-text uuid is the empty string; content that is no list is empty. */
  datatype Record = Record(sessionId: string, kind: RecordKind, uuid: string, content: seq<Block>)

  /** The fixed fields of a native-state record. */
  datatype Envelope = Envelope(recordType: string, provider: string, model: string, family: string, domain: string, itemIndex: int,
                               payload: string)

  datatype StateRecord = StateRecord(kind: string, sessionId: string, uuid: string, timestamp: string, anchorUuid: string,
                                     envelope: Envelope)

  /** What the fixture expects: the session, the calls with their results, the final text, one envelope per turn. */
  datatype Fixture = Fixture(session: string, calls: seq<Call>, results: seq<string>, final: string, native: seq<Envelope>) {
    ghost predicate Valid() {
      |results| == |calls| && |native| == |calls| + 1
    }
  }

  /** The blocks the scan reacts to. */
  datatype Event =
    | Called(uuid: string, id: string, call: Call)
    | Answered(id: string, isError: bool, denied: bool, content: string)
    | Finished(uuid: string)

  function Key(n: nat): string {
    "call-" + Digits(n)
  }

  lemma KeysDiffer(m: nat, n: nat)
    requires Key(m) == Key(n)
    ensures m == n
  {
    assert Key(m)[5..] == Digits(m) && Key(n)[5..] == Digits(n);
    DigitsValue(m);
    DigitsValue(n);
  }

  function EventOf(fx: Fixture, r: Record, b: Block): seq<Event> {
    match b
    case ToolUse(id, call) => if r.kind.Assistant? then [Called(r.uuid, id, call)] else []
    case ToolResult(id, isError, denied, content) => if r.kind.User? then [Answered(id, isError, denied, content)] else []
    case Text(text) => if r.kind.Assistant? && text == fx.final then [Finished(r.uuid)] else []
    case OtherBlock => []
  }

  function BlockEvents(fx: Fixture, r: Record, blocks: seq<Block>): seq<Event> {
    if blocks == [] then []
    else BlockEvents(fx, r, blocks[..|blocks| - 1]) + EventOf(fx, r, blocks[|blocks| - 1])
  }

  /** The tool and final events of a transcript, in order. */
  function Events(fx: Fixture, records: seq<Record>): seq<Event> {
    if records == [] then []
    else
      var last := records[|records| - 1];
      Events(fx, records[..|records| - 1]) + BlockEvents(fx, last, last.content)
  }

  /** The dictionaries and the anchor list of the scan. */
  datatype Progress = Progress(calls: map<string, Event>, results: map<string, Event>, anchors: seq<string>)

  const START := Progress(map[], map[], [])

  datatype Refusal = CrossSession | AssistantIdentity | CallBinding | ResultBinding | FinalBinding | MissingHistory
                   | UnsuccessfulResult | ResultBytes | NativeCount | NativeBinding

  function Step(fx: Fixture, st: Progress, e: Event): Result<Progress, Refusal> {
    match e
    case Called(uuid, id, call) =>
      var number := |st.calls|;
      if number >= |fx.calls| || id != Key(number) || call != fx.calls[number] || uuid in st.anchors then Err(CallBinding)
      else Ok(st.(calls := st.calls[id := e], anchors := st.anchors + [uuid]))
    case Answered(id, _, _, _) =>
      if id !in st.calls || id in st.results || |st.results| != |st.calls| - 1 then Err(ResultBinding)
      else Ok(st.(results := st.results[id := e]))
    case Finished(uuid) =>
      if |st.calls| != |fx.calls| || |st.results| != |fx.calls| || uuid in st.anchors || |st.anchors| != |fx.calls| then
        Err(FinalBinding)
      else Ok(st.(anchors := st.anchors + [uuid]))
  }

  /** The scan over a list of events; a refusal is kept. */
  function FoldFrom(fx: Fixture, start: Result<Progress, Refusal>, es: seq<Event>): Result<Progress, Refusal> {
    if es == [] then start
    else
      match FoldFrom(fx, start, es[..|es| - 1])
      case Ok(st) => Step(fx, st, es[|es| - 1])
      case Err(e) => Err(e)
  }

  function Fold(fx: Fixture, es: seq<Event>): Result<Progress, Refusal> {
    FoldFrom(fx, Ok(START), es)
  }

  lemma {:induction false} FoldConcat(fx: Fixture, start: Result<Progress, Refusal>, a: seq<Event>, b: seq<Event>)
    ensures FoldFrom(fx, start, a + b) == FoldFrom(fx, FoldFrom(fx, start, a), b)
  {
    if b == [] {
      assert a + b == a;
    } else {
      FoldConcat(fx, start, a, b[..|b| - 1]);
      FrontOfSum(a, b);
    }
  }

  lemma FrontOfSum(a: seq<Event>, b: seq<Event>)
    requires b != []
    ensures (a + b)[..|a + b| - 1] == a + b[..|b| - 1] && (a + b)[|a + b| - 1] == b[|b| - 1]
  {
  }

  lemma {:induction false} FoldRefused(fx: Fixture, e: Refusal, es: seq<Event>)
    ensures FoldFrom(fx, Err(e), es) == Err(e)
  {
    if es != [] {
      FoldRefused(fx, e, es[..|es| - 1]);
    }
  }

  lemma FoldNext(fx: Fixture, es: seq<Event>, e: Event)
    requires Fold(fx, es).Ok?
    ensures Fold(fx, es + [e]) == Step(fx, Fold(fx, es).value, e)
  {
    assert (es + [e])[..|es + [e]| - 1] == es;
  }

  // The declarative side.

  /** `count` rounds: each expected call from its own anchor, then an answer to it. */
  ghost function Rounds(fx: Fixture, anchors: seq<string>, answers: seq<Event>, count: nat): seq<Event>
    requires count <= |anchors| && count <= |answers| && count <= |fx.calls|
  {
    if count == 0 then []
    else Rounds(fx, anchors, answers, count - 1) + [Called(anchors[count - 1], Key(count - 1), fx.calls[count - 1]), answers[count - 1]]
  }

  ghost predicate Distinct(xs: seq<string>) {
    forall i, j :: 0 <= i < j < |xs| ==> xs[i] != xs[j]
  }

  /** The answers are results, the i-th for the i-th call. */
  ghost predicate AnswersInOrder(answers: seq<Event>) {
    forall i :: 0 <= i < |answers| ==> answers[i].Answered? && answers[i].id == Key(i)
  }

  /** The events are exactly call, result, ..., call, result, final text, from distinct anchors. */
  ghost predicate CompleteHistory(fx: Fixture, es: seq<Event>, anchors: seq<string>, answers: seq<Event>) {
    && |anchors| == |fx.calls| + 1 && |answers| == |fx.calls|
    && Distinct(anchors) && AnswersInOrder(answers)
    && es == Rounds(fx, anchors, answers, |fx.calls|) + [Finished(anchors[|fx.calls|])]
  }

  /** The first `count` call keys. */
  ghost function KeySet(count: nat): set<string> {
    if count == 0 then {} else KeySet(count - 1) + {Key(count - 1)}
  }

  lemma {:induction false} KeySetHas(count: nat, i: nat)
    ensures Key(i) in KeySet(count) <==> i < count
  {
    if count > 0 {
      KeySetHas(count - 1, i);
      if Key(i) == Key(count - 1) {
        KeysDiffer(i, count - 1);
      }
    }
  }

  lemma {:induction false} KeySetSize(count: nat)
    ensures |KeySet(count)| == count
  {
    if count > 0 {
      KeySetSize(count - 1);
      KeySetHas(count - 1, count - 1);
    }
  }

  lemma {:induction false} KeySetIndex(count: nat, k: string) returns (i: nat)
    requires k in KeySet(count)
    ensures i < count && k == Key(i)
  {
    if k == Key(count - 1) {
      i := count - 1;
    } else {
      i := KeySetIndex(count - 1, k);
    }
  }

  /** While the scan has not refused, the dictionaries are keyed by the first calls and results, anchors distinct. */
  ghost predicate Keyed(fx: Fixture, st: Progress) {
    && st.calls.Keys == KeySet(|st.calls|) && st.results.Keys == KeySet(|st.results|)
    && |st.results| <= |st.calls| <= |fx.calls| && Distinct(st.anchors)
    && (|st.anchors| == |st.calls| || (|st.anchors| == |fx.calls| + 1 && |st.results| == |fx.calls|))
  }

  lemma StepKeyed(fx: Fixture, st: Progress, e: Event)
    requires Keyed(fx, st) && Step(fx, st, e).Ok?
    ensures var after := Step(fx, st, e).value;
            && Keyed(fx, after)
            && |after.calls| == |st.calls| + (if e.Called? then 1 else 0)
            && |after.results| == |st.results| + (if e.Answered? then 1 else 0)
    ensures e.Answered? ==> e.id == Key(|st.results|)
  {
    match e
    case Called(_, _, _) =>
      GrowKeys(st.calls, e);
    case Answered(id, _, _, _) =>
      var i := KeySetIndex(|st.calls|, id);
      KeySetHas(|st.results|, i);
      GrowKeys(st.results, e);
    case Finished(_) =>
  }

  lemma GrowKeys(m: map<string, Event>, e: Event)
    requires m.Keys == KeySet(|m|)
    ensures var more := m[Key(|m|) := e];
            Key(|m|) !in m && |more| == |m| + 1 && more.Keys == KeySet(|m| + 1)
  {
    KeySetHas(|m|, |m|);
    KeySetSize(|m| + 1);
    assert m[Key(|m|) := e].Keys == KeySet(|m| + 1);
  }

  /** `answers` are the recorded results, in the order of the calls. */
  ghost predicate Recorded(results: map<string, Event>, answers: seq<Event>) {
    && |answers| == |results| && AnswersInOrder(answers)
    && forall i :: 0 <= i < |answers| ==> Key(i) in results && results[Key(i)] == answers[i]
  }

  lemma RecordOne(results: map<string, Event>, answers: seq<Event>, e: Event)
    requires Recorded(results, answers) && results.Keys == KeySet(|results|)
    requires e.Answered? && e.id == Key(|results|)
    ensures Recorded(results[e.id := e], answers + [e])
  {
    KeySetHas(|results|, |results|);
    RecordWith(Key, results, answers, e);
  }

  lemma RecordWith(key: nat -> string, results: map<string, Event>, answers: seq<Event>, e: Event)
    requires |answers| == |results| && e.Answered? && e.id == key(|results|) && e.id !in results
    requires forall i :: 0 <= i < |answers| ==>
               answers[i].Answered? && answers[i].id == key(i) && key(i) in results && results[key(i)] == answers[i]
    ensures var more, longer := results[e.id := e], answers + [e];
            && |longer| == |more|
            && forall i :: 0 <= i < |longer| ==>
                 longer[i].Answered? && longer[i].id == key(i) && key(i) in more && more[key(i)] == longer[i]
  {
    assert results[e.id := e].Keys == results.Keys + {e.id};
  }

  /** The events that lead to `count` calls, the recorded answers and these anchors, calls and results in turn. */
  ghost function Track(fx: Fixture, anchors: seq<string>, answers: seq<Event>, count: nat): seq<Event>
    requires |answers| <= count <= |answers| + 1 && count <= |anchors| && count <= |fx.calls|
  {
    var a := |answers|;
    Rounds(fx, anchors, answers, a)
      + if count == a + 1 then [Called(anchors[a], Key(a), fx.calls[a])]
        else if |anchors| == a then []
        else [Finished(anchors[a])]
  }

  /** The scan at `st`, having seen `es`, can still be completed. */
  ghost predicate OnTrack(fx: Fixture, es: seq<Event>, st: Progress, answers: seq<Event>) {
    && Keyed(fx, st) && |st.results| >= |st.calls| - 1 && Recorded(st.results, answers)
    && es == Track(fx, st.anchors, answers, |st.calls|)
  }

  lemma {:induction false} RoundsIgnoreTail(fx: Fixture, anchors: seq<string>, answers: seq<Event>, x: seq<string>, y: seq<Event>,
                                            count: nat)
    requires count <= |anchors| && count <= |answers| && count <= |fx.calls|
    ensures Rounds(fx, anchors + x, answers + y, count) == Rounds(fx, anchors, answers, count)
  {
    if count > 0 {
      RoundsIgnoreTail(fx, anchors, answers, x, y, count - 1);
    }
  }

  lemma {:induction false} FoldKeyed(fx: Fixture, es: seq<Event>)
    ensures Fold(fx, es).Ok? ==> Keyed(fx, Fold(fx, es).value)
  {
    if es != [] && Fold(fx, es).Ok? {
      FoldKeyed(fx, es[..|es| - 1]);
      StepKeyed(fx, Fold(fx, es[..|es| - 1]).value, es[|es| - 1]);
    }
  }

  /**
    * The scan admits a second call before the first is answered, but then no result is ever accepted
    * again; so whatever can still be completed has alternated calls and results from the start.
    */
  lemma {:induction false} FoldOnTrack(fx: Fixture, es: seq<Event>) returns (answers: seq<Event>)
    requires Fold(fx, es).Ok? && |Fold(fx, es).value.results| >= |Fold(fx, es).value.calls| - 1
    ensures OnTrack(fx, es, Fold(fx, es).value, answers)
  {
    if es == [] {
      answers := [];
      return;
    }
    var front, last := es[..|es| - 1], es[|es| - 1];
    assert es == front + [last];
    var st := Fold(fx, front).value;
    assert Fold(fx, es) == Step(fx, st, last);
    FoldKeyed(fx, front);
    StepKeyed(fx, st, last);
    var before := FoldOnTrack(fx, front);
    answers := StepOnTrack(fx, front, st, before, last);
  }

  lemma StepOnTrack(fx: Fixture, es: seq<Event>, st: Progress, answers: seq<Event>, e: Event) returns (next: seq<Event>)
    requires OnTrack(fx, es, st, answers) && Step(fx, st, e).Ok?
    requires |Step(fx, st, e).value.results| >= |Step(fx, st, e).value.calls| - 1
    ensures OnTrack(fx, es + [e], Step(fx, st, e).value, next)
  {
    StepKeyed(fx, st, e);
    match e
    case Called(uuid, _, _) =>
      next := answers;
      TrackCall(fx, st.anchors, answers, uuid);
    case Finished(uuid) =>
      next := answers;
      TrackFinal(fx, st.anchors, answers, uuid);
    case Answered(_, _, _, _) =>
      next := answers + [e];
      RecordOne(st.results, answers, e);
      TrackAnswer(fx, st.anchors, answers, e);
  }

  lemma TrackCall(fx: Fixture, anchors: seq<string>, answers: seq<Event>, uuid: string)
    requires |answers| == |anchors| < |fx.calls|
    ensures var a := |answers|;
            Track(fx, anchors + [uuid], answers, a + 1) == Track(fx, anchors, answers, a) + [Called(uuid, Key(a), fx.calls[a])]
  {
    RoundsIgnoreTail(fx, anchors, answers, [uuid], [], |answers|);
    assert answers + [] == answers;
  }

  lemma TrackFinal(fx: Fixture, anchors: seq<string>, answers: seq<Event>, uuid: string)
    requires |answers| == |anchors| == |fx.calls|
    ensures var a := |answers|;
            Track(fx, anchors + [uuid], answers, a) == Track(fx, anchors, answers, a) + [Finished(uuid)]
  {
    RoundsIgnoreTail(fx, anchors, answers, [uuid], [], |answers|);
    assert answers + [] == answers;
  }

  lemma TrackAnswer(fx: Fixture, anchors: seq<string>, answers: seq<Event>, e: Event)
    requires |answers| + 1 == |anchors| <= |fx.calls|
    ensures Track(fx, anchors, answers + [e], |anchors|) == Track(fx, anchors, answers, |anchors|) + [e]
  {
    RoundsIgnoreTail(fx, anchors, answers, [], [e], |answers|);
    assert anchors + [] == anchors;
  }

  /** Running the scan over whole rounds from distinct anchors. */
  ghost predicate AfterRounds(fx: Fixture, st: Progress, anchors: seq<string>, answers: seq<Event>, count: nat)
    requires count <= |anchors| && count <= |answers|
  {
    && Keyed(fx, st) && |st.calls| == |st.results| == count && st.anchors == anchors[..count]
    && Recorded(st.results, answers[..count])
  }

  lemma {:induction false} RoundsAccepted(fx: Fixture, anchors: seq<string>, answers: seq<Event>, count: nat)
    requires |anchors| == |fx.calls| + 1 && |answers| == |fx.calls| && count <= |fx.calls|
    requires Distinct(anchors) && AnswersInOrder(answers)
    ensures Fold(fx, Rounds(fx, anchors, answers, count)).Ok?
    ensures AfterRounds(fx, Fold(fx, Rounds(fx, anchors, answers, count)).value, anchors, answers, count)
  {
    if count > 0 {
      var k := count - 1;
      RoundsAccepted(fx, anchors, answers, k);
      var done := Rounds(fx, anchors, answers, k);
      var st := Fold(fx, done).value;
      var call := Called(anchors[k], Key(k), fx.calls[k]);
      var all := Rounds(fx, anchors, answers, count);
      assert all == done + [call] + [answers[k]];
      OneRound(fx, st, anchors, answers, k);
      FoldNext(fx, done, call);
      FoldNext(fx, done + [call], answers[k]);
    }
  }

  lemma OneRound(fx: Fixture, st: Progress, anchors: seq<string>, answers: seq<Event>, k: nat)
    requires |anchors| == |fx.calls| + 1 && |answers| == |fx.calls| && k < |fx.calls|
    requires Distinct(anchors) && AnswersInOrder(answers) && AfterRounds(fx, st, anchors, answers, k)
    ensures var mid := Step(fx, st, Called(anchors[k], Key(k), fx.calls[k]));
            && mid.Ok? && Step(fx, mid.value, answers[k]).Ok?
            && AfterRounds(fx, Step(fx, mid.value, answers[k]).value, anchors, answers, k + 1)
  {
    var call := Called(anchors[k], Key(k), fx.calls[k]);
    var mid := Step(fx, st, call);
    assert anchors[..k + 1] == anchors[..k] + [anchors[k]];
    assert answers[..k + 1] == answers[..k] + [answers[k]];
    StepKeyed(fx, st, call);
    KeySetHas(k + 1, k);
    KeySetHas(k, k);
    StepKeyed(fx, mid.value, answers[k]);
    RecordOne(st.results, answers[..k], answers[k]);
  }

  ghost predicate Complete(fx: Fixture, st: Progress) {
    |st.calls| == |fx.calls| && |st.results| == |fx.calls| && |st.anchors| == |fx.calls| + 1
  }

  /** The scan ends complete exactly on the complete histories, and returns their anchors and answers. */
  lemma CompleteExactly(fx: Fixture, es: seq<Event>, anchors: seq<string>, answers: seq<Event>)
    ensures CompleteHistory(fx, es, anchors, answers)
            <==> && Fold(fx, es).Ok? && Complete(fx, Fold(fx, es).value)
                 && Fold(fx, es).value.anchors == anchors && Recorded(Fold(fx, es).value.results, answers)
  {
    if CompleteHistory(fx, es, anchors, answers) {
      HistoryAccepted(fx, es, anchors, answers);
    } else if Fold(fx, es).Ok? && Complete(fx, Fold(fx, es).value) {
      var seen := FoldOnTrack(fx, es);
      if Recorded(Fold(fx, es).value.results, answers) {
        assert seen == answers;
      }
    }
  }

  lemma HistoryAccepted(fx: Fixture, es: seq<Event>, anchors: seq<string>, answers: seq<Event>)
    requires CompleteHistory(fx, es, anchors, answers)
    ensures Fold(fx, es).Ok? && Complete(fx, Fold(fx, es).value)
    ensures Fold(fx, es).value.anchors == anchors && Recorded(Fold(fx, es).value.results, answers)
  {
    var n := |fx.calls|;
    RoundsAccepted(fx, anchors, answers, n);
    assert es[..|es| - 1] == Rounds(fx, anchors, answers, n);
    assert anchors == anchors[..n] + [anchors[n]];
    assert answers[..n] == answers;
  }

  // The scan as written.

  lemma {:induction false} BlockEventsSplit(fx: Fixture, r: Record, blocks: seq<Block>, j: nat) returns (rest: seq<Event>)
    requires j <= |blocks|
    ensures BlockEvents(fx, r, blocks) == BlockEvents(fx, r, blocks[..j]) + rest
  {
    if j == |blocks| {
      rest := [];
      assert blocks[..j] == blocks;
    } else {
      var front := blocks[..|blocks| - 1];
      rest := BlockEventsSplit(fx, r, front, j);
      assert front[..j] == blocks[..j];
      rest := rest + EventOf(fx, r, blocks[|blocks| - 1]);
    }
  }

  /** A transcript refused part way stays refused, for the same reason. */
  lemma {:induction false} RefusalStays(fx: Fixture, records: seq<Record>, i: nat)
    requires i <= |records| && Fold(fx, Events(fx, records[..i])).Err?
    ensures Fold(fx, Events(fx, records)) == Fold(fx, Events(fx, records[..i]))
  {
    if i == |records| {
      assert records[..i] == records;
    } else {
      var front, last := records[..|records| - 1], records[|records| - 1];
      assert front[..i] == records[..i];
      RefusalStays(fx, front, i);
      FoldConcat(fx, Ok(START), Events(fx, front), BlockEvents(fx, last, last.content));
      FoldRefused(fx, Fold(fx, Events(fx, front)).error, BlockEvents(fx, last, last.content));
    }
  }

  /** One block: a step, or nothing. */
  function StepBlock(fx: Fixture, st: Progress, r: Record, b: Block): Result<Progress, Refusal> {
    var es := EventOf(fx, r, b);
    if es == [] then Ok(st) else Step(fx, st, es[0])
  }

  /** Taking block `j` is one step, and a refusal there settles the whole record. */
  lemma BlockTaken(fx: Fixture, r: Record, st: Progress, j: nat)
    requires j < |r.content| && FoldFrom(fx, Ok(st), BlockEvents(fx, r, r.content[..j])).Ok?
    ensures var now := FoldFrom(fx, Ok(st), BlockEvents(fx, r, r.content[..j])).value;
            var next := StepBlock(fx, now, r, r.content[j]);
            && FoldFrom(fx, Ok(st), BlockEvents(fx, r, r.content[..j + 1])) == next
            && (next.Err? ==> FoldFrom(fx, Ok(st), BlockEvents(fx, r, r.content)) == next)
  {
    var taken, es := BlockEvents(fx, r, r.content[..j]), EventOf(fx, r, r.content[j]);
    NextBlockEvents(fx, r, j);
    FoldConcat(fx, Ok(st), taken, es);
    OneStep(fx, FoldFrom(fx, Ok(st), taken), r, r.content[j]);
    RecordStaysRefused(fx, r, st, j + 1);
  }

  lemma NextBlockEvents(fx: Fixture, r: Record, j: nat)
    requires j < |r.content|
    ensures BlockEvents(fx, r, r.content[..j + 1]) == BlockEvents(fx, r, r.content[..j]) + EventOf(fx, r, r.content[j])
  {
    assert r.content[..j + 1][..j] == r.content[..j];
  }

  lemma OneStep(fx: Fixture, now: Result<Progress, Refusal>, r: Record, b: Block)
    requires now.Ok?
    ensures FoldFrom(fx, now, EventOf(fx, r, b)) == StepBlock(fx, now.value, r, b)
  {
    var es := EventOf(fx, r, b);
    assert es != [] ==> es[..|es| - 1] == [];
  }

  lemma RecordStaysRefused(fx: Fixture, r: Record, st: Progress, j: nat)
    requires j <= |r.content|
    ensures var more := FoldFrom(fx, Ok(st), BlockEvents(fx, r, r.content[..j]));
            more.Err? ==> FoldFrom(fx, Ok(st), BlockEvents(fx, r, r.content)) == more
  {
    var es := BlockEvents(fx, r, r.content[..j]);
    var rest := BlockEventsSplit(fx, r, r.content, j);
    FoldConcat(fx, Ok(st), es, rest);
    if FoldFrom(fx, Ok(st), es).Err? {
      FoldRefused(fx, FoldFrom(fx, Ok(st), es).error, rest);
    }
  }

  /** The body of the inner loop: the three tests a block goes through. */
  method TakeBlock(fx: Fixture, r: Record, block: Block, st: Progress) returns (res: Result<Progress, Refusal>)
    ensures res == StepBlock(fx, st, r, block)
  {
    var calls, results, anchors := st.calls, st.results, st.anchors;
    if r.kind.Assistant? && block.ToolUse? {
      var number := |calls|;
      if number >= |fx.calls| || block.id != Key(number) || block.call != fx.calls[number] || r.uuid in anchors {
        return Err(CallBinding);
      }
      calls, anchors := calls[block.id := Called(r.uuid, block.id, block.call)], anchors + [r.uuid];
    }
    if r.kind.User? && block.ToolResult? {
      var key := block.toolUseId;
      if key !in calls || key in results || |results| != |calls| - 1 {
        return Err(ResultBinding);
      }
      results := results[key := Answered(key, block.isError, block.denied, block.content)];
    }
    if r.kind.Assistant? && block.Text? && block.text == fx.final {
      if |calls| != |fx.calls| || |results| != |fx.calls| || r.uuid in anchors || |anchors| != |fx.calls| {
        return Err(FinalBinding);
      }
      anchors := anchors + [r.uuid];
    }
    return Ok(Progress(calls, results, anchors));
  }

  /** The inner loop, over the blocks of one record. */
  method ScanBlocks(fx: Fixture, r: Record, st: Progress) returns (res: Result<Progress, Refusal>)
    ensures res == FoldFrom(fx, Ok(st), BlockEvents(fx, r, r.content))
  {
    var now := st;
    for j := 0 to |r.content|
      invariant FoldFrom(fx, Ok(st), BlockEvents(fx, r, r.content[..j])) == Ok(now)
    {
      BlockTaken(fx, r, st, j);
      res := TakeBlock(fx, r, r.content[j], now);
      if res.Err? {
        return;
      }
      now := res.value;
    }
    assert r.content[..|r.content|] == r.content;
    return Ok(now);
  }

  ghost function AssistantIds(records: seq<Record>): set<string> {
    set i | 0 <= i < |records| && records[i].kind.Assistant? :: records[i].uuid
  }

  /** Every record is of the session, and every assistant record has an identity of its own. */
  ghost predicate RecordsIdentified(fx: Fixture, records: seq<Record>) {
    forall i :: 0 <= i < |records| ==> Identified(fx, records[i], AssistantIds(records[..i]))
  }

  /** A record of the session, whose identity, if it is the assistant's, is not among `ids`. */
  ghost predicate Identified(fx: Fixture, r: Record, ids: set<string>) {
    r.sessionId == fx.session && (r.kind.Assistant? ==> r.uuid != "" && r.uuid !in ids)
  }

  /** What the scan holds after each record, up to a refusal, which is final. */
  ghost predicate Holds(fx: Fixture, records: seq<Record>, held: seq<Result<Progress, Refusal>>) {
    |held| == |records| + 1 && held[0] == Ok(START) && forall i :: 0 <= i < |records| ==> HeldStep(fx, records, held, i)
  }

  ghost predicate HeldStep(fx: Fixture, records: seq<Record>, held: seq<Result<Progress, Refusal>>, i: nat)
    requires |held| == |records| + 1 && i < |records|
  {
    && held[i + 1] == FoldFrom(fx, held[i], BlockEvents(fx, records[i], records[i].content))
    && (held[i + 1].Err? ==> held[|records|].Err?)
  }

  lemma HeldAfter(fx: Fixture, records: seq<Record>) returns (held: seq<Result<Progress, Refusal>>)
    ensures Holds(fx, records, held) && held[|records|] == Fold(fx, Events(fx, records))
  {
    held := seq(|records| + 1, i requires 0 <= i <= |records| => Fold(fx, Events(fx, records[..i])));
    assert records[..|records|] == records;
    forall i | 0 <= i < |records|
      ensures HeldStep(fx, records, held, i)
    {
      RecordTaken(fx, records, i);
    }
  }

  /** The scan accepts exactly when the records are identified and the events fold without refusal. */
  method ScanRecords(fx: Fixture, records: seq<Record>) returns (res: Result<(Progress, set<string>), Refusal>)
    ensures res.Ok? <==> RecordsIdentified(fx, records) && Fold(fx, Events(fx, records)).Ok?
    ensures res.Ok? ==> res.value == (Fold(fx, Events(fx, records)).value, AssistantIds(records))
  {
    ghost var held := HeldAfter(fx, records);
    res := ScanHolding(fx, records, held);
  }

  /** The outer loop. */
  method ScanHolding(fx: Fixture, records: seq<Record>, ghost held: seq<Result<Progress, Refusal>>)
    returns (res: Result<(Progress, set<string>), Refusal>)
    requires Holds(fx, records, held)
    ensures res.Ok? <==> RecordsIdentified(fx, records) && held[|records|].Ok?
    ensures res.Ok? ==> held[|records|] == Ok(res.value.0) && res.value.1 == AssistantIds(records)
  {
    var st, ids := START, {};
    for i := 0 to |records|
      invariant held[i] == Ok(st) && ids == AssistantIds(records[..i]) && IdentifiedTo(fx, records, i)
    {
      var record := records[i];
      NextIdentified(fx, records, i, ids);
      if record.sessionId != fx.session {
        return Err(CrossSession);
      }
      if record.kind.Assistant? {
        if record.uuid == "" || record.uuid in ids {
          return Err(AssistantIdentity);
        }
        ids := ids + {record.uuid};
      }
      var scanned := ScanBlocks(fx, record, st);
      assert HeldStep(fx, records, held, i);
      if scanned.Err? {
        return Err(scanned.error);
      }
      st := scanned.value;
    }
    assert records[..|records|] == records;
    return Ok((st, ids));
  }

  /** Taking record `i` continues the scan, and a refusal there settles the whole transcript. */
  lemma RecordTaken(fx: Fixture, records: seq<Record>, i: nat)
    requires i < |records|
    ensures var next := FoldFrom(fx, Fold(fx, Events(fx, records[..i])), BlockEvents(fx, records[i], records[i].content));
            && Fold(fx, Events(fx, records[..i + 1])) == next
            && (next.Err? ==> Fold(fx, Events(fx, records)) == next)
  {
    assert records[..i + 1][..i] == records[..i];
    FoldConcat(fx, Ok(START), Events(fx, records[..i]), BlockEvents(fx, records[i], records[i].content));
    if Fold(fx, Events(fx, records[..i + 1])).Err? {
      RefusalStays(fx, records, i + 1);
    }
  }

  /** The records up to `n` are identified. */
  ghost predicate IdentifiedTo(fx: Fixture, records: seq<Record>, n: nat)
    requires n <= |records|
  {
    forall i :: 0 <= i < n ==> Identified(fx, records[i], AssistantIds(records[..i]))
  }

  lemma NextIdentified(fx: Fixture, records: seq<Record>, i: nat, ids: set<string>)
    requires i < |records| && ids == AssistantIds(records[..i]) && IdentifiedTo(fx, records, i)
    ensures Identified(fx, records[i], ids) <==> IdentifiedTo(fx, records, i + 1)
    ensures !Identified(fx, records[i], ids) ==> !RecordsIdentified(fx, records)
    ensures AssistantIds(records[..i + 1]) == ids + if records[i].kind.Assistant? then {records[i].uuid} else {}
    ensures IdentifiedTo(fx, records, |records|) <==> RecordsIdentified(fx, records)
  {
    IdsGrow(records, i);
  }

  lemma IdsGrow(records: seq<Record>, i: nat)
    requires i < |records|
    ensures AssistantIds(records[..i + 1])
            == AssistantIds(records[..i]) + if records[i].kind.Assistant? then {records[i].uuid} else {}
  {
    var more, less := records[..i + 1], records[..i];
    assert forall j :: 0 <= j < i ==> more[j] == less[j];
    assert more[i] == records[i];
  }

  /** Every answer succeeded and carries the expected content. */
  ghost predicate AnswersMatch(fx: Fixture, answers: seq<Event>) {
    && |answers| == |fx.results|
    && forall i :: 0 <= i < |answers| ==>
         answers[i].Answered? && !answers[i].isError && !answers[i].denied && answers[i].content == fx.results[i]
  }

  /** The native-state records, in order. */
  function Native(states: seq<StateRecord>): seq<StateRecord> {
    if states == [] then []
    else
      var last := states[|states| - 1];
      Native(states[..|states| - 1]) + if last.kind == "native-state" then [last] else []
  }

  ghost function IsNative(): StateRecord -> bool {
    (r: StateRecord) => r.kind == "native-state"
  }

  lemma {:induction false} NativePicked(states: seq<StateRecord>)
    ensures Picked(states, IsNative(), Native(states))
  {
    if states == [] {
      PickedNone(IsNative());
    } else {
      var front, last := states[..|states| - 1], states[|states| - 1];
      NativePicked(front);
      PickedMore(front, IsNative(), Native(front), last);
      assert states == front + [last];
    }
  }

  /**
    * The native-state records stand at the places `at`, and the i-th of them is bound to anchor `i`, carries
    * the expected envelope, and has a new identity.
    */
  ghost predicate NativeAt(fx: Fixture, states: seq<StateRecord>, at: seq<nat>, anchors: seq<string>, ids: set<string>) {
    && Increasing(at) && (forall k: nat :: k in at <==> k < |states| && states[k].kind == "native-state")
    && |at| == |fx.native| == |anchors|
    && (forall i :: 0 <= i < |at| ==> at[i] < |states| && BoundTo(fx, states[at[i]], anchors[i], fx.native[i], ids))
    && forall i, j :: 0 <= i < j < |at| ==> states[at[i]].uuid != states[at[j]].uuid
  }

  ghost predicate BoundTo(fx: Fixture, r: StateRecord, anchor: string, envelope: Envelope, ids: set<string>) {
    && r.sessionId == fx.session && r.anchorUuid == anchor && r.envelope == envelope
    && r.uuid != "" && r.timestamp != "" && r.uuid !in ids
  }

  ghost predicate NativeStates(fx: Fixture, states: seq<StateRecord>, anchors: seq<string>, ids: set<string>) {
    exists at: seq<nat> :: NativeAt(fx, states, at, anchors, ids)
  }

  lemma BoundAt(fx: Fixture, states: seq<StateRecord>, native: seq<StateRecord>, at: seq<nat>, anchors: seq<string>, ids: set<string>)
    requires Increasing(at) && Hold(states, native, at) && PassAt(states, IsNative(), at)
    ensures NativeAt(fx, states, at, anchors, ids) <==> NativeBound(fx, native, anchors, ids)
  {
  }

  /** The filter and the places say the same. */
  lemma NativeBoundMeans(fx: Fixture, states: seq<StateRecord>, anchors: seq<string>, ids: set<string>)
    ensures NativeStates(fx, states, anchors, ids) <==> NativeBound(fx, Native(states), anchors, ids)
  {
    NativePicked(states);
    var at: seq<nat> :| Increasing(at) && Hold(states, Native(states), at) && PassAt(states, IsNative(), at);
    BoundAt(fx, states, Native(states), at, anchors, ids);
    if other: seq<nat> :| NativeAt(fx, states, other, anchors, ids) {
      assert PassAt(states, IsNative(), other);
      SamePlaces(at, other);
    }
  }

  /** Record `i` is bound to anchor `i`, carries the expected envelope, and its identity is new. */
  ghost predicate NativeBound(fx: Fixture, native: seq<StateRecord>, anchors: seq<string>, ids: set<string>) {
    && |native| == |fx.native| == |anchors|
    && (forall i :: 0 <= i < |native| ==>
          && native[i].sessionId == fx.session && native[i].anchorUuid == anchors[i] && native[i].envelope == fx.native[i]
          && native[i].uuid != "" && native[i].timestamp != "" && native[i].uuid !in ids)
    && forall i, j :: 0 <= i < j < |native| ==> native[i].uuid != native[j].uuid
  }

  method CheckNative(fx: Fixture, native: seq<StateRecord>, anchors: seq<string>, ids: set<string>) returns (ok: bool)
    requires |native| == |fx.native| == |anchors|
    ensures ok <==> NativeBound(fx, native, anchors, ids)
  {
    var nativeIds := {};
    for i := 0 to |native|
      invariant nativeIds == set j | 0 <= j < i :: native[j].uuid
      invariant forall j :: 0 <= j < i ==>
                  && native[j].sessionId == fx.session && native[j].anchorUuid == anchors[j] && native[j].envelope == fx.native[j]
                  && native[j].uuid != "" && native[j].timestamp != "" && native[j].uuid !in ids
      invariant forall j, k :: 0 <= j < k < i ==> native[j].uuid != native[k].uuid
    {
      var record := native[i];
      if record.sessionId != fx.session || record.anchorUuid != anchors[i] || record.envelope != fx.native[i]
         || record.uuid == "" || record.uuid in ids || record.uuid in nativeIds || record.timestamp == ""
      {
        return false;
      }
      nativeIds := nativeIds + {record.uuid};
    }
    ok := true;
  }

  method CheckAnswers(fx: Fixture, results: map<string, Event>, ghost answers: seq<Event>) returns (refusal: Option<Refusal>)
    requires |fx.results| == |answers| && Recorded(results, answers)
    ensures refusal.None? <==> AnswersMatch(fx, answers)
  {
    for i := 0 to |fx.results|
      invariant forall j :: 0 <= j < i ==> !answers[j].isError && !answers[j].denied && answers[j].content == fx.results[j]
    {
      assert answers[i].Answered?;
      var result := results[Key(i)];
      if result.isError || result.denied {
        return Some(UnsuccessfulResult);
      }
      if result.content != fx.results[i] {
        return Some(ResultBytes);
      }
    }
    return None;
  }

  // The history, block by block.

  /** A block with its record. */
  datatype Item = Item(record: Record, block: Block)

  ghost function BlocksOf(r: Record, blocks: seq<Block>): seq<Item> {
    seq(|blocks|, j requires 0 <= j < |blocks| => Item(r, blocks[j]))
  }

  /** All blocks of a transcript, in order. */
  ghost function Items(records: seq<Record>): seq<Item> {
    if records == [] then []
    else
      var last := records[|records| - 1];
      Items(records[..|records| - 1]) + BlocksOf(last, last.content)
  }

  /** The assistant's calls, the user's results, and the assistant's final text. */
  ghost function Counts(fx: Fixture): Item -> bool {
    (it: Item) =>
      || (it.record.kind.Assistant? && it.block.ToolUse?)
      || (it.record.kind.User? && it.block.ToolResult?)
      || (it.record.kind.Assistant? && it.block == Text(fx.final))
  }

  ghost function EventIn(fx: Fixture): Item -> seq<Event> {
    (it: Item) => EventOf(fx, it.record, it.block)
  }

  /** Each block stands for one event. */
  ghost predicate Yields(eventIn: Item -> seq<Event>, some: seq<Item>, es: seq<Event>) {
    |some| == |es| && forall i :: 0 <= i < |some| ==> eventIn(some[i]) == [es[i]]
  }

  /** The blocks that count are those with an event, and these are the events. */
  ghost predicate Tells(eventIn: Item -> seq<Event>, counts: Item -> bool, all: seq<Item>, es: seq<Event>) {
    exists some :: Picked(all, counts, some) && Yields(eventIn, some, es)
  }

  lemma TellsMore(eventIn: Item -> seq<Event>, counts: Item -> bool, all: seq<Item>, es: seq<Event>, it: Item)
    requires Tells(eventIn, counts, all, es) && |eventIn(it)| == if counts(it) then 1 else 0
    ensures Tells(eventIn, counts, all + [it], es + eventIn(it))
  {
    var some :| Picked(all, counts, some) && Yields(eventIn, some, es);
    PickedMore(all, counts, some, it);
    if counts(it) {
      assert eventIn(it) == [eventIn(it)[0]];
      assert Yields(eventIn, some + [it], es + eventIn(it));
    } else {
      assert some + [] == some && es + eventIn(it) == es;
    }
  }

  lemma OneEventEach(fx: Fixture, it: Item)
    ensures |EventIn(fx)(it)| == if Counts(fx)(it) then 1 else 0
  {
  }

  lemma {:induction false} TellsBlocks(fx: Fixture, eventIn: Item -> seq<Event>, counts: Item -> bool, all: seq<Item>, es: seq<Event>,
                                       r: Record, blocks: seq<Block>)
    requires eventIn == EventIn(fx) && counts == Counts(fx) && Tells(eventIn, counts, all, es)
    ensures Tells(eventIn, counts, all + BlocksOf(r, blocks), es + BlockEvents(fx, r, blocks))
    decreases |blocks|
  {
    if blocks == [] {
      assert all + BlocksOf(r, blocks) == all && es + [] == es;
    } else {
      var front, it := blocks[..|blocks| - 1], Item(r, blocks[|blocks| - 1]);
      TellsBlocks(fx, eventIn, counts, all, es, r, front);
      OneEventEach(fx, it);
      TellsMore(eventIn, counts, all + BlocksOf(r, front), es + BlockEvents(fx, r, front), it);
      OneBlockMore(r, blocks);
      SumOfThree(all, BlocksOf(r, front), [it]);
      SumOfThree(es, BlockEvents(fx, r, front), eventIn(it));
    }
  }

  lemma OneBlockMore(r: Record, blocks: seq<Block>)
    requires blocks != []
    ensures BlocksOf(r, blocks) == BlocksOf(r, blocks[..|blocks| - 1]) + [Item(r, blocks[|blocks| - 1])]
  {
  }

  lemma SumOfThree<T>(a: seq<T>, b: seq<T>, c: seq<T>)
    ensures a + b + c == a + (b + c)
  {
  }

  lemma {:induction false} TranscriptTells(fx: Fixture, records: seq<Record>)
    ensures Tells(EventIn(fx), Counts(fx), Items(records), Events(fx, records))
  {
    if records == [] {
      var none: seq<Item> := [];
      PickedNone(Counts(fx));
      assert Yields(EventIn(fx), none, []);
    } else {
      var front, last := records[..|records| - 1], records[|records| - 1];
      TranscriptTells(fx, front);
      TellsBlocks(fx, EventIn(fx), Counts(fx), Items(front), Events(fx, front), last, last.content);
    }
  }

  ghost predicate IsCall(fx: Fixture, it: Item, anchor: string, i: nat) {
    i < |fx.calls| && it.record.kind.Assistant? && it.record.uuid == anchor && it.block == ToolUse("call-" + Digits(i), fx.calls[i])
  }

  ghost predicate IsAnswer(fx: Fixture, it: Item, i: nat) {
    i < |fx.results| && it.record.kind.User? && it.block == ToolResult("call-" + Digits(i), false, false, fx.results[i])
  }

  ghost predicate IsEnd(fx: Fixture, it: Item, anchor: string) {
    it.record.kind.Assistant? && it.record.uuid == anchor && it.block == Text(fx.final)
  }

  /** The blocks that count: each expected call with the expected answer after it, then the final text, from distinct anchors. */
  ghost predicate History(fx: Fixture, some: seq<Item>, anchors: seq<string>) {
    && |anchors| == |fx.calls| + 1 && Distinct(anchors) && |some| == 2 * |fx.calls| + 1
    && (forall i :: 0 <= i < |fx.calls| ==> IsCall(fx, some[2 * i], anchors[i], i) && IsAnswer(fx, some[2 * i + 1], i))
    && IsEnd(fx, some[2 * |fx.calls|], anchors[|fx.calls|])
  }

  /** What is accepted: the history, and the native-state records bound to its anchors. */
  ghost predicate Shown(fx: Fixture, records: seq<Record>, states: seq<StateRecord>, anchors: seq<string>) {
    && RecordsIdentified(fx, records)
    && (exists some :: Picked(Items(records), Counts(fx), some) && History(fx, some, anchors))
    && NativeStates(fx, states, anchors, AssistantIds(records))
  }

  lemma {:induction false} RoundsAt(fx: Fixture, anchors: seq<string>, answers: seq<Event>, count: nat)
    requires count <= |anchors| && count <= |answers| && count <= |fx.calls|
    ensures var es := Rounds(fx, anchors, answers, count);
            |es| == 2 * count
            && forall i :: 0 <= i < count ==> es[2 * i] == Called(anchors[i], Key(i), fx.calls[i]) && es[2 * i + 1] == answers[i]
  {
    if count > 0 {
      RoundsAt(fx, anchors, answers, count - 1);
    }
  }

  /** The answers of a list of events. */
  ghost function AnswersOf(es: seq<Event>, count: nat): seq<Event>
    requires 2 * count <= |es|
  {
    seq(count, i requires 0 <= i < count => es[2 * i + 1])
  }

  ghost predicate EventHistory(fx: Fixture, es: seq<Event>, anchors: seq<string>) {
    && |anchors| == |fx.calls| + 1 && Distinct(anchors) && |es| == 2 * |fx.calls| + 1 && |fx.results| == |fx.calls|
    && (forall i :: 0 <= i < |fx.calls| ==>
          es[2 * i] == Called(anchors[i], Key(i), fx.calls[i]) && es[2 * i + 1] == Answered(Key(i), false, false, fx.results[i]))
    && es[2 * |fx.calls|] == Finished(anchors[|fx.calls|])
  }

  lemma HistoryEvents(fx: Fixture, es: seq<Event>, anchors: seq<string>, answers: seq<Event>)
    requires fx.Valid()
    ensures CompleteHistory(fx, es, anchors, answers) && AnswersMatch(fx, answers)
            ==> EventHistory(fx, es, anchors)
  {
    if |anchors| == |fx.calls| + 1 && |answers| == |fx.calls| {
      RoundsAt(fx, anchors, answers, |fx.calls|);
    }
  }

  lemma EventsHistory(fx: Fixture, es: seq<Event>, anchors: seq<string>)
    requires fx.Valid() && EventHistory(fx, es, anchors)
    ensures CompleteHistory(fx, es, anchors, AnswersOf(es, |fx.calls|)) && AnswersMatch(fx, AnswersOf(es, |fx.calls|))
  {
    var answers, n := AnswersOf(es, |fx.calls|), |fx.calls|;
    RoundsAt(fx, anchors, answers, n);
    SamePairs(es, Rounds(fx, anchors, answers, n) + [Finished(anchors[n])], n);
  }

  lemma {:induction false} SamePairs(a: seq<Event>, b: seq<Event>, n: nat)
    requires |a| == |b| == 2 * n + 1 && a[2 * n] == b[2 * n]
    requires forall i :: 0 <= i < n ==> a[2 * i] == b[2 * i] && a[2 * i + 1] == b[2 * i + 1]
    ensures a == b
  {
    forall k | 0 <= k < |a|
      ensures a[k] == b[k]
    {
      var i := k / 2;
      assert k == 2 * i || k == 2 * i + 1;
      assert i < n || k == 2 * n;
    }
  }

  /** Event by event and block by block. */
  lemma HistoryMeans(fx: Fixture, some: seq<Item>, es: seq<Event>, anchors: seq<string>)
    requires fx.Valid() && Yields(EventIn(fx), some, es)
    ensures History(fx, some, anchors) <==> EventHistory(fx, es, anchors)
  {
    if |anchors| == |fx.calls| + 1 && |es| == 2 * |fx.calls| + 1 {
      forall i | 0 <= i < |fx.calls|
        ensures IsCall(fx, some[2 * i], anchors[i], i) <==> es[2 * i] == Called(anchors[i], Key(i), fx.calls[i])
        ensures IsAnswer(fx, some[2 * i + 1], i) <==> es[2 * i + 1] == Answered(Key(i), false, false, fx.results[i])
      {
        BlockMeans(fx, some[2 * i], es[2 * i], anchors[i], i);
        BlockMeans(fx, some[2 * i + 1], es[2 * i + 1], anchors[i], i);
      }
      EndMeans(fx, some[2 * |fx.calls|], es[2 * |fx.calls|], anchors[|fx.calls|]);
    }
  }

  lemma BlockMeans(fx: Fixture, it: Item, e: Event, anchor: string, i: nat)
    requires i < |fx.calls| && i < |fx.results| && EventOf(fx, it.record, it.block) == [e]
    ensures IsCall(fx, it, anchor, i) <==> e == Called(anchor, Key(i), fx.calls[i])
    ensures IsAnswer(fx, it, i) <==> e == Answered(Key(i), false, false, fx.results[i])
  {
    assert [e][0] == e;
  }

  lemma EndMeans(fx: Fixture, it: Item, e: Event, anchor: string)
    requires EventOf(fx, it.record, it.block) == [e]
    ensures IsEnd(fx, it, anchor) <==> e == Finished(anchor)
  {
    assert [e][0] == e;
  }

  /** The history in events is the history in blocks. */
  lemma HistoryShown(fx: Fixture, records: seq<Record>, anchors: seq<string>)
    requires fx.Valid()
    ensures (exists some :: Picked(Items(records), Counts(fx), some) && History(fx, some, anchors))
            <==> EventHistory(fx, Events(fx, records), anchors)
  {
    TranscriptTells(fx, records);
    var some :| Picked(Items(records), Counts(fx), some) && Yields(EventIn(fx), some, Events(fx, records));
    HistoryMeans(fx, some, Events(fx, records), anchors);
    if other :| Picked(Items(records), Counts(fx), other) && History(fx, other, anchors) {
      PickedOnce(Items(records), Counts(fx), some, other);
    }
  }

  lemma EvidenceMeans(fx: Fixture, records: seq<Record>, states: seq<StateRecord>, anchors: seq<string>)
    requires fx.Valid()
    ensures Shown(fx, records, states, anchors) <==> exists answers :: Evidence(fx, records, states, anchors, answers)
  {
    var es := Events(fx, records);
    HistoryShown(fx, records, anchors);
    NativeBoundMeans(fx, states, anchors, AssistantIds(records));
    if Shown(fx, records, states, anchors) {
      EventsHistory(fx, es, anchors);
      assert Evidence(fx, records, states, anchors, AnswersOf(es, |fx.calls|));
    }
    if answers :| Evidence(fx, records, states, anchors, answers) {
      HistoryEvents(fx, es, anchors, answers);
    }
  }

  lemma AllEvidenceMeans(fx: Fixture, records: seq<Record>, states: seq<StateRecord>)
    requires fx.Valid()
    ensures forall anchors :: Shown(fx, records, states, anchors) <==> exists answers :: Evidence(fx, records, states, anchors, answers)
  {
    forall anchors
      ensures Shown(fx, records, states, anchors) <==> exists answers :: Evidence(fx, records, states, anchors, answers)
    {
      EvidenceMeans(fx, records, states, anchors);
    }
  }

  /** The evidence as the scan finds it. */
  ghost predicate Evidence(fx: Fixture, records: seq<Record>, states: seq<StateRecord>, anchors: seq<string>, answers: seq<Event>) {
    && RecordsIdentified(fx, records)
    && CompleteHistory(fx, Events(fx, records), anchors, answers)
    && AnswersMatch(fx, answers)
    && NativeBound(fx, Native(states), anchors, AssistantIds(records))
  }

  /**
    * A transcript of any length is accepted exactly when its tool and final events are the expected
    * calls, each followed by its successful answer, and then the final text, from pairwise distinct
    * assistant anchors, with the i-th native-state record bound to the i-th anchor.
    */
  method PersistedEvidence(fx: Fixture, records: seq<Record>, states: seq<StateRecord>)
    returns (r: Result<seq<string>, Refusal>)
    requires fx.Valid()
    ensures r.Ok? <==> exists anchors :: Shown(fx, records, states, anchors)
    ensures r.Ok? ==> Shown(fx, records, states, r.value)
  {
    AllEvidenceMeans(fx, records, states);
    var scanned := ScanRecords(fx, records);
    ghost var es := Events(fx, records);
    if scanned.Err? {
      NoEvidence(fx, records, states);
      return Err(scanned.error);
    }
    var (st, ids) := scanned.value;
    if |st.calls| != |fx.calls| || |st.results| != |fx.calls| || |st.anchors| != |fx.calls| + 1 {
      NoEvidence(fx, records, states);
      return Err(MissingHistory);
    }
    ghost var answers := FoldOnTrack(fx, es);
    EvidenceHere(fx, records, states, st, answers);
    var refusal := CheckAnswers(fx, st.results, answers);
    if refusal.Some? {
      return Err(refusal.value);
    }
    var native := Native(states);
    if |native| != |fx.calls| + 1 {
      return Err(NativeCount);
    }
    var bound := CheckNative(fx, native, st.anchors, ids);
    if !bound {
      return Err(NativeBinding);
    }
    assert Evidence(fx, records, states, st.anchors, answers);
    EvidenceMeans(fx, records, states, st.anchors);
    return Ok(st.anchors);
  }

  lemma NoEvidence(fx: Fixture, records: seq<Record>, states: seq<StateRecord>)
    requires !RecordsIdentified(fx, records) || Fold(fx, Events(fx, records)).Err?
             || !Complete(fx, Fold(fx, Events(fx, records)).value)
    ensures !exists anchors, answers :: Evidence(fx, records, states, anchors, answers)
  {
    forall anchors, answers
      ensures !Evidence(fx, records, states, anchors, answers)
    {
      CompleteExactly(fx, Events(fx, records), anchors, answers);
    }
  }

  /** After a complete scan the anchors and the answers are settled; only their contents are still open. */
  lemma EvidenceHere(fx: Fixture, records: seq<Record>, states: seq<StateRecord>, st: Progress, answers: seq<Event>)
    requires RecordsIdentified(fx, records) && Fold(fx, Events(fx, records)) == Ok(st) && Complete(fx, st)
    requires Recorded(st.results, answers)
    ensures forall anchors, others :: Evidence(fx, records, states, anchors, others)
              <==> anchors == st.anchors && others == answers && AnswersMatch(fx, answers)
                   && NativeBound(fx, Native(states), st.anchors, AssistantIds(records))
  {
    forall anchors, others
      ensures Evidence(fx, records, states, anchors, others)
              <==> anchors == st.anchors && others == answers && AnswersMatch(fx, answers)
                   && NativeBound(fx, Native(states), st.anchors, AssistantIds(records))
    {
      CompleteExactly(fx, Events(fx, records), anchors, others);
      if Recorded(st.results, others) {
        assert others == answers;
      }
    }
  }
}
