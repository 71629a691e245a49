/** The scripted provider fixture: a pull protocol of `begin` and `next` requests over one connection each. */
module ProviderProtocol {
  import opened Outcome
  import opened Picking

  /** The identity and native state an assistant message carries. */
  datatype Binding = Binding(providerId: string, modelKey: string, family: string, stateFamily: string, domain: string, items: string)

  datatype Message = Message(assistant: bool, binding: Binding)

  datatype Turn = Turn(model: string, messages: seq<Message>)

  datatype Operation = Begin | Next | OtherOperation

  datatype Request = Request(version: int, scope: string, invocationId: string, sequence: int, operation: Operation, turn: Option<Turn>)

  datatype Event =
    | NativeState(turn: nat)
    | CallStart(turn: nat)
    | CallDelta(turn: nat)
    | CallEnd(turn: nat)
    | TextDelta
    | Done(stop: string)

  datatype Reply = Accepted(invocationId: string, sequence: int) | Pulled(invocationId: string, sequence: int, event: Event)

  datatype Failure = Scope | BadTurn | NativeContinuation | Pull | End

  datatype Invocation = Invocation(id: string, sequence: int, events: seq<Event>, at: nat)

  /** The fixture's metadata: its scope, the selected model, the length of the script, and the binding turn `i` must carry. */
  datatype Config = Config(scope: string, model: string, script: nat, binding: nat -> Binding)

  /** The events of one invocation: a scripted call, or the closing text once the script is exhausted. */
  function Script(cfg: Config, turn: nat): (es: seq<Event>)
    ensures |es| >= 1 && forall k :: 0 <= k < |es| ==> (es[k].Done? <==> k == |es| - 1)
  {
    if turn < cfg.script then [NativeState(turn), CallStart(turn), CallDelta(turn), CallEnd(turn), Done("tool_use")]
    else [NativeState(turn), TextDelta, Done("end_turn")]
  }

  function Assistants(ms: seq<Message>): seq<Message> {
    if ms == [] then []
    else Assistants(ms[..|ms| - 1]) + if ms[|ms| - 1].assistant then [ms[|ms| - 1]] else []
  }

  /** The history holds one assistant message per earlier turn, each with that turn's native state. */
  predicate Continues(cfg: Config, ms: seq<Message>, turns: nat) {
    var prior := Assistants(ms);
    |prior| == turns && forall i :: 0 <= i < |prior| ==> prior[i].binding == cfg.binding(i)
  }

  datatype State = State(invocation: Option<Invocation>, turns: nat)

  const START := State(None, 0)

  predicate InScope(cfg: Config, q: Request) {
    q.version == 1 && q.scope == cfg.scope && |q.invocationId| <= 128
  }

  function Step(cfg: Config, st: State, q: Request): Result<(State, Reply), Failure> {
    if !InScope(cfg, q) then Err(Scope)
    else if q.operation == Begin then
      if st.invocation.Some? || q.sequence != 0 || q.turn.None? || q.turn.value.model != cfg.model || st.turns > cfg.script
      then Err(BadTurn)
      else if !Continues(cfg, q.turn.value.messages, st.turns) then Err(NativeContinuation)
      else Ok((State(Some(Invocation(q.invocationId, 1, Script(cfg, st.turns), 0)), st.turns + 1), Accepted(q.invocationId, 0)))
    else if q.operation != Next || st.invocation.None? || q.invocationId != st.invocation.value.id
            || q.sequence != st.invocation.value.sequence || q.turn.Some? then Err(Pull)
    else
      var inv := st.invocation.value;
      if inv.at >= |inv.events| then Err(End)
      else
        var event := inv.events[inv.at];
        Ok((st.(invocation := if event.Done? then None else Some(inv.(sequence := inv.sequence + 1, at := inv.at + 1))),
            Pulled(q.invocationId, q.sequence, event)))
  }

  /** The module variables `invocation` and `turns`, and the exchange that updates them. */
  class Provider {
    const cfg: Config
    var invocation: Option<Invocation>
    var turns: nat

    ghost function Abstract(): State
      reads this
    {
      State(invocation, turns)
    }

    constructor (cfg: Config)
      ensures this.cfg == cfg && Abstract() == START
    {
      this.cfg, invocation, turns := cfg, None, 0;
    }

    /** `response`: on a failure the process ends, so only the failure matters. */
    method Response(q: Request) returns (r: Result<Reply, Failure>)
      modifies this`invocation, this`turns
      ensures var step := Step(cfg, old(Abstract()), q);
              if step.Ok? then r == Ok(step.value.1) && Abstract() == step.value.0 else r == Err(step.error)
    {
      if !InScope(cfg, q) {
        return Err(Scope);
      }
      if q.operation == Begin {
        if invocation.Some? || q.sequence != 0 || q.turn.None? || q.turn.value.model != cfg.model || turns > cfg.script {
          return Err(BadTurn);
        }
        if !Continues(cfg, q.turn.value.messages, turns) {
          return Err(NativeContinuation);
        }
        invocation := Some(Invocation(q.invocationId, 1, Script(cfg, turns), 0));
        turns := turns + 1;
        return Ok(Accepted(q.invocationId, 0));
      }
      if q.operation != Next || invocation.None? || q.invocationId != invocation.value.id {
        return Err(Pull);
      }
      var inv := invocation.value;
      invocation := Some(inv.(sequence := inv.sequence + 1));
      if q.sequence != inv.sequence || q.turn.Some? {
        return Err(Pull);
      }
      invocation := Some(inv.(sequence := inv.sequence + 1, at := inv.at + 1));
      if inv.at >= |inv.events| {
        return Err(End);
      }
      var event := inv.events[inv.at];
      if event.Done? {
        invocation := None;
      }
      return Ok(Pulled(q.invocationId, q.sequence, event));
    }
  }

  /** All requests of one process; the first failure ends it. */
  ghost function Run(cfg: Config, requests: seq<Request>): Result<(State, seq<Reply>), Failure> {
    if requests == [] then Ok((START, []))
    else
      match Run(cfg, requests[..|requests| - 1])
      case Err(e) => Err(e)
      case Ok((st, replies)) =>
        match Step(cfg, st, requests[|requests| - 1])
        case Err(e) => Err(e)
        case Ok((next, reply)) => Ok((next, replies + [reply]))
  }

  datatype Receipt = Receipt(passed: bool, turns: nat, peerValidated: bool)

  /** The serving loop and its receipt, over the requests that arrive before it is stopped. */
  method Serve(cfg: Config, requests: seq<Request>) returns (receipt: Receipt, ghost replies: seq<Reply>)
    ensures receipt.passed ==> Run(cfg, requests).Ok? && replies == Run(cfg, requests).value.1
    ensures receipt.passed <==> requests != [] && Run(cfg, requests).Ok? && Run(cfg, requests).value.0 == State(None, 5)
  {
    var provider := new Provider(cfg);
    var peerValidated := false;
    replies := [];
    for i := 0 to |requests|
      invariant Run(cfg, requests[..i]) == Ok((provider.Abstract(), replies)) && provider.cfg == cfg
      invariant peerValidated <==> i > 0
    {
      peerValidated := true;
      assert requests[..i + 1][..i] == requests[..i];
      var r := provider.Response(requests[i]);
      if r.Err? {
        FailureEnds(cfg, requests, i + 1);
        return Receipt(false, provider.turns, peerValidated), replies;
      }
      replies := replies + [r.value];
    }
    assert requests[..|requests|] == requests;
    return Receipt(provider.turns == 5 && provider.invocation == None && peerValidated, provider.turns, peerValidated), replies;
  }

  lemma {:induction false} FailureEnds(cfg: Config, requests: seq<Request>, i: nat)
    requires i <= |requests| && Run(cfg, requests[..i]).Err?
    ensures Run(cfg, requests).Err?
  {
    if i == |requests| {
      assert requests[..i] == requests;
    } else {
      assert requests[..|requests| - 1][..i] == requests[..i];
      FailureEnds(cfg, requests[..|requests| - 1], i);
    }
  }

  // What every run without a failure looks like.

  /** One whole invocation: an acceptance, then a scripted call, or after the last call the closing text. */
  ghost function Exchange(cfg: Config, turn: nat, id: string): seq<Reply> {
    if turn < cfg.script then
      [Accepted(id, 0), Pulled(id, 1, NativeState(turn)), Pulled(id, 2, CallStart(turn)), Pulled(id, 3, CallDelta(turn)),
       Pulled(id, 4, CallEnd(turn)), Pulled(id, 5, Done("tool_use"))]
    else
      [Accepted(id, 0), Pulled(id, 1, NativeState(turn)), Pulled(id, 2, TextDelta), Pulled(id, 3, Done("end_turn"))]
  }

  lemma ExchangeIsScript(cfg: Config, turn: nat, id: string)
    ensures |Exchange(cfg, turn, id)| == |Script(cfg, turn)| + 1 && Exchange(cfg, turn, id)[0] == Accepted(id, 0)
    ensures forall k :: 0 <= k < |Script(cfg, turn)| ==> Exchange(cfg, turn, id)[k + 1] == Pulled(id, k + 1, Script(cfg, turn)[k])
  {
  }

  /** The first `count` invocations, one after the other. */
  ghost function Exchanges(cfg: Config, ids: seq<string>, count: nat): seq<Reply>
    requires count <= |ids|
  {
    if count == 0 then [] else Exchanges(cfg, ids, count - 1) + Exchange(cfg, count - 1, ids[count - 1])
  }

  /** The replies so far, given the ids the client chose for the turns begun. */
  ghost predicate Told(cfg: Config, st: State, replies: seq<Reply>, ids: seq<string>) {
    && |ids| == st.turns <= cfg.script + 1
    && match st.invocation
       case None => replies == Exchanges(cfg, ids, st.turns)
       case Some(inv) =>
         && st.turns >= 1 && inv.id == ids[st.turns - 1] && Opened(cfg, st.turns - 1, inv)
         && replies == Exchanges(cfg, ids, st.turns - 1) + Exchange(cfg, st.turns - 1, inv.id)[..inv.at + 1]
  }

  /** An invocation that has replied to its `begin` and to `at` pulls, with more to come. */
  ghost predicate Opened(cfg: Config, turn: nat, inv: Invocation) {
    && inv.events == Script(cfg, turn) && inv.at < |inv.events| && inv.sequence == inv.at + 1
    && inv.at + 1 < |Exchange(cfg, turn, inv.id)|
  }

  lemma {:induction false} ExchangesIgnoreTail(cfg: Config, ids: seq<string>, more: seq<string>, count: nat)
    requires count <= |ids|
    ensures Exchanges(cfg, ids + more, count) == Exchanges(cfg, ids, count)
  {
    if count > 0 {
      ExchangesIgnoreTail(cfg, ids, more, count - 1);
    }
  }

  lemma BeginTold(cfg: Config, st: State, replies: seq<Reply>, ids: seq<string>, q: Request)
    requires Told(cfg, st, replies, ids) && Step(cfg, st, q).Ok? && q.operation == Begin
    ensures Told(cfg, Step(cfg, st, q).value.0, replies + [Step(cfg, st, q).value.1], ids + [q.invocationId])
  {
    ExchangesIgnoreTail(cfg, ids, [q.invocationId], st.turns);
    ExchangeIsScript(cfg, st.turns, q.invocationId);
    assert Exchange(cfg, st.turns, q.invocationId)[..1] == [Accepted(q.invocationId, 0)];
  }

  lemma NextTold(cfg: Config, st: State, replies: seq<Reply>, ids: seq<string>, q: Request)
    requires Told(cfg, st, replies, ids) && Step(cfg, st, q).Ok? && q.operation != Begin
    ensures Told(cfg, Step(cfg, st, q).value.0, replies + [Step(cfg, st, q).value.1], ids)
  {
    var inv, t := st.invocation.value, st.turns - 1;
    NextReply(cfg, st, q, t);
    PrefixMore(Exchanges(cfg, ids, t), Exchange(cfg, t, inv.id), inv.at + 1);
  }

  /** What a served pull replies and leaves open. */
  lemma NextReply(cfg: Config, st: State, q: Request, t: nat)
    requires st.invocation.Some? && Opened(cfg, t, st.invocation.value) && Step(cfg, st, q).Ok? && q.operation != Begin
    ensures var inv := st.invocation.value;
            var all, (next, reply) := Exchange(cfg, t, inv.id), Step(cfg, st, q).value;
            && reply == all[inv.at + 1] && next.turns == st.turns && all[..|all|] == all
            && if inv.at + 2 == |all| then next.invocation.None?
               else next.invocation.Some? && next.invocation.value.id == inv.id && next.invocation.value.at == inv.at + 1
                    && Opened(cfg, t, next.invocation.value)
  {
    ExchangeIsScript(cfg, t, st.invocation.value.id);
  }

  lemma PrefixMore(before: seq<Reply>, all: seq<Reply>, n: nat)
    requires n < |all|
    ensures before + all[..n] + [all[n]] == before + all[..n + 1]
  {
  }

  /**
    * Over every request sequence that never fails, the replies are whole exchanges one after the other
    * and then at most one open one, as far as it has come: each an acceptance followed by its events in
    * order with consecutive numbers. At most one turn more than the script is long ever begins.
    */
  lemma {:induction false} RepliesFollowScript(cfg: Config, requests: seq<Request>) returns (ids: seq<string>)
    requires Run(cfg, requests).Ok?
    ensures Told(cfg, Run(cfg, requests).value.0, Run(cfg, requests).value.1, ids)
    ensures |Run(cfg, requests).value.1| == |requests|
  {
    if requests == [] {
      ids := [];
    } else {
      var front, q := requests[..|requests| - 1], requests[|requests| - 1];
      ids := RepliesFollowScript(cfg, front);
      var (st, replies) := Run(cfg, front).value;
      if q.operation == Begin {
        BeginTold(cfg, st, replies, ids, q);
        ids := ids + [q.invocationId];
      } else {
        NextTold(cfg, st, replies, ids, q);
      }
    }
  }

  /** With the four-call script, the state of a passing receipt means five whole exchanges and nothing else. */
  lemma {:induction false} PassedMeansFiveExchanges(cfg: Config, requests: seq<Request>) returns (ids: seq<string>)
    requires cfg.script == 4 && Run(cfg, requests).Ok? && Run(cfg, requests).value.0 == State(None, 5)
    ensures |ids| == 5 && Run(cfg, requests).value.1 == Exchanges(cfg, ids, 5)
    ensures |requests| == 28
  {
    ids := RepliesFollowScript(cfg, requests);
    assert |Exchanges(cfg, ids, 1)| == 6;
    assert |Exchanges(cfg, ids, 2)| == 12;
    assert |Exchanges(cfg, ids, 3)| == 18;
    assert |Exchanges(cfg, ids, 4)| == 24;
  }

  // Conversely: a client that keeps to the protocol is served to the end.

  ghost function BeginRequest(cfg: Config, id: string, history: seq<Message>): Request {
    Request(1, cfg.scope, id, 0, Begin, Some(Turn(cfg.model, history)))
  }

  ghost function NextRequest(cfg: Config, id: string, sequence: int): Request {
    Request(1, cfg.scope, id, sequence, Next, None)
  }

  /** How many pulls a turn takes. */
  ghost function Pulls(cfg: Config, turn: nat): nat {
    if turn < cfg.script then 5 else 3
  }

  /** A turn's `begin` and its first `count` pulls. */
  ghost function Asks(cfg: Config, id: string, history: seq<Message>, count: nat): seq<Request> {
    if count == 0 then [BeginRequest(cfg, id, history)]
    else Asks(cfg, id, history, count - 1) + [NextRequest(cfg, id, count)]
  }

  /** The first `count` turns, each with its id and history. */
  ghost function Client(cfg: Config, ids: seq<string>, histories: seq<seq<Message>>, count: nat): seq<Request>
    requires count <= |ids| && count <= |histories|
  {
    if count == 0 then []
    else Client(cfg, ids, histories, count - 1) + Asks(cfg, ids[count - 1], histories[count - 1], Pulls(cfg, count - 1))
  }

  /** The history holds the assistant's messages of all earlier turns, at the places `at`, each with that turn's native state. */
  ghost predicate ContinuesAt(cfg: Config, ms: seq<Message>, turns: nat, at: seq<nat>) {
    && Increasing(at) && (forall k: nat :: k in at <==> k < |ms| && ms[k].assistant)
    && |at| == turns && forall i :: 0 <= i < |at| ==> at[i] < |ms| && ms[at[i]].binding == cfg.binding(i)
  }

  ghost predicate TakesUp(cfg: Config, ms: seq<Message>, turns: nat) {
    exists at: seq<nat> :: ContinuesAt(cfg, ms, turns, at)
  }

  ghost function FromAssistant(): Message -> bool {
    (m: Message) => m.assistant
  }

  lemma {:induction false} AssistantsPicked(ms: seq<Message>)
    ensures Picked(ms, FromAssistant(), Assistants(ms))
  {
    if ms == [] {
      PickedNone(FromAssistant());
    } else {
      var front, last := ms[..|ms| - 1], ms[|ms| - 1];
      AssistantsPicked(front);
      PickedMore(front, FromAssistant(), Assistants(front), last);
      assert ms == front + [last];
    }
  }

  lemma ContinuesMeans(cfg: Config, ms: seq<Message>, turns: nat)
    ensures Continues(cfg, ms, turns) <==> TakesUp(cfg, ms, turns)
  {
    AssistantsPicked(ms);
    var at: seq<nat> :| Increasing(at) && Hold(ms, Assistants(ms), at) && PassAt(ms, FromAssistant(), at);
    if Continues(cfg, ms, turns) {
      assert ContinuesAt(cfg, ms, turns, at);
    }
    if other: seq<nat> :| ContinuesAt(cfg, ms, turns, other) {
      SamePlaces(at, other);
    }
  }

  /** Turns that may be asked for: short ids, and histories that take up the turns before. */
  ghost predicate Askable(cfg: Config, ids: seq<string>, histories: seq<seq<Message>>) {
    && |ids| == |histories| <= cfg.script + 1
    && forall t :: 0 <= t < |ids| ==> |ids[t]| <= 128 && TakesUp(cfg, histories[t], t)
  }

  /** Whole turns, and then the last one with `count` pulls. */
  ghost predicate Orderly(cfg: Config, requests: seq<Request>, ids: seq<string>, histories: seq<seq<Message>>, count: nat) {
    && Askable(cfg, ids, histories)
    && if ids == [] then requests == []
       else
         var t := |ids| - 1;
         count <= Pulls(cfg, t) && requests == Client(cfg, ids, histories, t) + Asks(cfg, ids[t], histories[t], count)
  }

  lemma RunOne(cfg: Config, requests: seq<Request>, q: Request)
    requires Run(cfg, requests).Ok? && Step(cfg, Run(cfg, requests).value.0, q).Ok?
    ensures Run(cfg, requests + [q]).Ok? && Run(cfg, requests + [q]).value.0 == Step(cfg, Run(cfg, requests).value.0, q).value.0
  {
    assert (requests + [q])[..|requests|] == requests;
  }

  /** The state after `count` pulls of turn `t`. */
  ghost function Midway(cfg: Config, t: nat, id: string, count: nat): State {
    State(if count == Pulls(cfg, t) then None else Some(Invocation(id, count + 1, Script(cfg, t), count)), t + 1)
  }

  lemma BeginServed(cfg: Config, t: nat, id: string, history: seq<Message>)
    requires t <= cfg.script && |id| <= 128 && TakesUp(cfg, history, t)
    ensures var step := Step(cfg, State(None, t), BeginRequest(cfg, id, history));
            step.Ok? && step.value.0 == Midway(cfg, t, id, 0)
  {
    ContinuesMeans(cfg, history, t);
  }

  lemma NextServed(cfg: Config, t: nat, id: string, count: nat)
    requires |id| <= 128 && count < Pulls(cfg, t)
    ensures var step := Step(cfg, Midway(cfg, t, id, count), NextRequest(cfg, id, count + 1));
            step.Ok? && step.value.0 == Midway(cfg, t, id, count + 1)
  {
    ExchangeIsScript(cfg, t, id);
  }

  lemma FirstAsk(cfg: Config, before: seq<Request>, t: nat, id: string, history: seq<Message>)
    requires ServedTo(cfg, before, State(None, t)) && t <= cfg.script
    requires |id| <= 128 && TakesUp(cfg, history, t)
    ensures ServedTo(cfg, before + [BeginRequest(cfg, id, history)], Midway(cfg, t, id, 0))
  {
    BeginServed(cfg, t, id, history);
    RunOne(cfg, before, BeginRequest(cfg, id, history));
  }

  lemma NextAsk(cfg: Config, sofar: seq<Request>, t: nat, id: string, count: nat)
    requires ServedTo(cfg, sofar, Midway(cfg, t, id, count)) && |id| <= 128 && count < Pulls(cfg, t)
    ensures ServedTo(cfg, sofar + [NextRequest(cfg, id, count + 1)], Midway(cfg, t, id, count + 1))
  {
    NextServed(cfg, t, id, count);
    RunOne(cfg, sofar, NextRequest(cfg, id, count + 1));
  }

  /** The requests so far are served and lead to `st`. */
  ghost predicate ServedTo(cfg: Config, requests: seq<Request>, st: State) {
    Run(cfg, requests).Ok? && Run(cfg, requests).value.0 == st
  }

  lemma {:induction false} TurnServed(cfg: Config, before: seq<Request>, t: nat, id: string, history: seq<Message>, count: nat)
    returns (asked: seq<Request>)
    requires ServedTo(cfg, before, State(None, t)) && t <= cfg.script
    requires |id| <= 128 && TakesUp(cfg, history, t) && count <= Pulls(cfg, t)
    ensures asked == before + Asks(cfg, id, history, count) && ServedTo(cfg, asked, Midway(cfg, t, id, count))
  {
    if count == 0 {
      FirstAsk(cfg, before, t, id, history);
      asked := before + [BeginRequest(cfg, id, history)];
    } else {
      asked := TurnServed(cfg, before, t, id, history, count - 1);
      NextAsk(cfg, asked, t, id, count - 1);
      asked := asked + [NextRequest(cfg, id, count)];
      OneMoreAsk(cfg, before, id, history, count);
    }
  }

  lemma OneMoreAsk(cfg: Config, before: seq<Request>, id: string, history: seq<Message>, count: nat)
    requires count > 0
    ensures before + Asks(cfg, id, history, count) == before + Asks(cfg, id, history, count - 1) + [NextRequest(cfg, id, count)]
  {
  }

  /** Whatever ids a client picks, asking for each turn with its history and pulling in order is never refused. */
  lemma {:induction false} ClientServed(cfg: Config, ids: seq<string>, histories: seq<seq<Message>>, count: nat)
    requires Askable(cfg, ids, histories) && count <= |ids|
    ensures Run(cfg, Client(cfg, ids, histories, count)).Ok? && Run(cfg, Client(cfg, ids, histories, count)).value.0 == State(None, count)
  {
    if count > 0 {
      ClientServed(cfg, ids, histories, count - 1);
      var asked := TurnServed(cfg, Client(cfg, ids, histories, count - 1), count - 1, ids[count - 1], histories[count - 1],
                              Pulls(cfg, count - 1));
    }
  }

  // And nobody else is.

  /** Where an orderly client stands. */
  ghost predicate StandsAt(cfg: Config, st: State, ids: seq<string>, count: nat) {
    if ids == [] then st == START else st == Midway(cfg, |ids| - 1, ids[|ids| - 1], count)
  }

  lemma {:induction false} ClientIgnoresTail(cfg: Config, ids: seq<string>, histories: seq<seq<Message>>, id: string,
                                             history: seq<Message>, count: nat)
    requires count <= |ids| == |histories|
    ensures Client(cfg, ids + [id], histories + [history], count) == Client(cfg, ids, histories, count)
  {
    if count > 0 {
      ClientIgnoresTail(cfg, ids, histories, id, history, count - 1);
    }
  }

  /** A `begin` that is served takes up all turns so far, and the turn before it has been pulled to its end. */
  lemma BeginOrderly(cfg: Config, requests: seq<Request>, st: State, ids: seq<string>, histories: seq<seq<Message>>, count: nat, q: Request)
    requires Orderly(cfg, requests, ids, histories, count) && StandsAt(cfg, st, ids, count)
    requires Step(cfg, st, q).Ok? && q.operation == Begin
    ensures q.turn.Some?
    ensures var more, told := ids + [q.invocationId], histories + [q.turn.value.messages];
            Orderly(cfg, requests + [q], more, told, 0) && StandsAt(cfg, Step(cfg, st, q).value.0, more, 0)
  {
    var id, history := q.invocationId, q.turn.value.messages;
    BeginAsked(cfg, st, q);
    ContinuesMeans(cfg, history, st.turns);
    ClientIgnoresTail(cfg, ids, histories, id, history, |ids|);
    MoreAskable(cfg, ids, histories, id, history);
    WholeTurns(cfg, requests, st, ids, histories, count);
  }

  /** What is served as a `begin` is the request of that turn. */
  lemma BeginAsked(cfg: Config, st: State, q: Request)
    requires Step(cfg, st, q).Ok? && q.operation == Begin
    ensures q.turn.Some? && st.invocation.None? && st.turns <= cfg.script && |q.invocationId| <= 128
    ensures q == BeginRequest(cfg, q.invocationId, q.turn.value.messages) && Continues(cfg, q.turn.value.messages, st.turns)
    ensures Step(cfg, st, q).value.0 == Midway(cfg, st.turns, q.invocationId, 0)
  {
  }

  lemma MoreAskable(cfg: Config, ids: seq<string>, histories: seq<seq<Message>>, id: string, history: seq<Message>)
    requires Askable(cfg, ids, histories) && |ids| <= cfg.script && |id| <= 128 && TakesUp(cfg, history, |ids|)
    ensures Askable(cfg, ids + [id], histories + [history])
  {
  }

  /** With no invocation open, the requests are whole turns. */
  lemma WholeTurns(cfg: Config, requests: seq<Request>, st: State, ids: seq<string>, histories: seq<seq<Message>>, count: nat)
    requires Orderly(cfg, requests, ids, histories, count) && StandsAt(cfg, st, ids, count) && st.invocation.None?
    ensures requests == Client(cfg, ids, histories, |ids|) && st.turns == |ids|
  {
  }

  lemma NextOrderly(cfg: Config, requests: seq<Request>, st: State, ids: seq<string>, histories: seq<seq<Message>>, count: nat, q: Request)
    requires Orderly(cfg, requests, ids, histories, count) && StandsAt(cfg, st, ids, count)
    requires Step(cfg, st, q).Ok? && q.operation != Begin
    ensures Orderly(cfg, requests + [q], ids, histories, count + 1) && StandsAt(cfg, Step(cfg, st, q).value.0, ids, count + 1)
  {
    var t := |ids| - 1;
    assert q == NextRequest(cfg, ids[t], count + 1);
    ExchangeIsScript(cfg, t, ids[t]);
    OneMoreAsk(cfg, Client(cfg, ids, histories, t), ids[t], histories[t], count + 1);
  }

  lemma {:induction false} ServedIsOrderly(cfg: Config, requests: seq<Request>)
    returns (ids: seq<string>, histories: seq<seq<Message>>, count: nat)
    requires Run(cfg, requests).Ok?
    ensures Orderly(cfg, requests, ids, histories, count) && StandsAt(cfg, Run(cfg, requests).value.0, ids, count)
  {
    if requests == [] {
      ids, histories, count := [], [], 0;
    } else {
      var front, q := requests[..|requests| - 1], requests[|requests| - 1];
      ids, histories, count := ServedIsOrderly(cfg, front);
      assert requests == front + [q];
      ids, histories, count := OneMoreOrderly(cfg, front, Run(cfg, front).value.0, ids, histories, count, q);
    }
  }

  lemma OneMoreOrderly(cfg: Config, requests: seq<Request>, st: State, ids: seq<string>, histories: seq<seq<Message>>,
                       count: nat, q: Request)
    returns (more: seq<string>, told: seq<seq<Message>>, n: nat)
    requires Orderly(cfg, requests, ids, histories, count) && StandsAt(cfg, st, ids, count) && Step(cfg, st, q).Ok?
    ensures Orderly(cfg, requests + [q], more, told, n) && StandsAt(cfg, Step(cfg, st, q).value.0, more, n)
  {
    if q.operation == Begin {
      BeginOrderly(cfg, requests, st, ids, histories, count, q);
      more, told, n := ids + [q.invocationId], histories + [q.turn.value.messages], 0;
    } else {
      NextOrderly(cfg, requests, st, ids, histories, count, q);
      more, told, n := ids, histories, count + 1;
    }
  }

  /** A run goes without failure exactly when the client begins each turn on its history and pulls it in order to its end. */
  lemma {:induction false} OnlyOrderlyServed(cfg: Config, requests: seq<Request>)
    ensures Run(cfg, requests).Ok? <==> exists ids, histories, count :: Orderly(cfg, requests, ids, histories, count)
  {
    if Run(cfg, requests).Ok? {
      var ids, histories, count := ServedIsOrderly(cfg, requests);
    }
    if ids, histories, count :| Orderly(cfg, requests, ids, histories, count) {
      OrderlyServed(cfg, requests, ids, histories, count);
    }
  }

  lemma OrderlyServed(cfg: Config, requests: seq<Request>, ids: seq<string>, histories: seq<seq<Message>>, count: nat)
    requires Orderly(cfg, requests, ids, histories, count)
    ensures Run(cfg, requests).Ok? && StandsAt(cfg, Run(cfg, requests).value.0, ids, count)
  {
    if ids != [] {
      var t := |ids| - 1;
      ClientServed(cfg, ids, histories, t);
      var asked := TurnServed(cfg, Client(cfg, ids, histories, t), t, ids[t], histories[t], count);
    }
  }
}
