/** `withNpmRegistryAccess` calls in flight together: any interleaving of their beginnings, bodies and ends. */
module RegistryCalls {
  import opened Outcome
  import opened RegistryScope

  /** The process, with what each call in flight has saved. */
  datatype State = State(env: Env, open: int, calls: map<nat, Saved>)

  datatype Event = Begin(id: nat, user: string, global: string) | Work(effect: Env -> Env) | End(id: nat)

  /** A fresh call begins, some call's body works, or a call in flight ends. */
  predicate Enabled(s: State, e: Event) {
    match e
    case Begin(id, _, _) => id !in s.calls
    case Work(_) => s.calls != map[]
    case End(id) => id in s.calls
  }

  function Step(s: State, e: Event): State
    requires Enabled(s, e)
  {
    match e
    case Begin(id, user, global) => State(Inside(s.env, user, global), s.open + 1, s.calls[id := SavedOn(s.env)])
    case Work(effect) => s.(env := effect(s.env))
    case End(id) => State(Restored(s.env, s.calls[id]), s.open - 1, s.calls - {id})
  }

  ghost predicate IsRun(s: State, events: seq<Event>)
    decreases |events|
  {
    events == [] || (Enabled(s, events[0]) && IsRun(Step(s, events[0]), events[1..]))
  }

  function After(s: State, events: seq<Event>): State
    requires IsRun(s, events)
    decreases |events|
  {
    if events == [] then s else After(Step(s, events[0]), events[1..])
  }

  /** Under any interleaving the counter is the number of calls in flight, so the guard is open only then. */
  lemma {:induction false} CounterCountsCalls(s: State, events: seq<Event>)
    requires IsRun(s, events) && s.open == |s.calls|
    ensures After(s, events).open == |After(s, events).calls|
    ensures After(s, events).open > 0 <==> After(s, events).calls != map[]
    decreases |events|
  {
    if events == [] {
      assert s.calls != map[] ==> s.calls.Keys != {};
    } else {
      StepCounts(s, events[0]);
      CounterCountsCalls(Step(s, events[0]), events[1..]);
    }
  }

  lemma StepCounts(s: State, e: Event)
    requires Enabled(s, e) && s.open == |s.calls|
    ensures Step(s, e).open == |Step(s, e).calls|
  {
    match e
    case Begin(id, _, _) => OneCallMore(s.calls, id, SavedOn(s.env));
    case Work(_) =>
    case End(id) => OneCallLess(s.calls, id);
  }

  lemma OneCallMore(calls: map<nat, Saved>, id: nat, saved: Saved)
    requires id !in calls
    ensures |calls[id := saved]| == |calls| + 1
  {
    var more := calls[id := saved];
    assert more.Keys == calls.Keys + {id};
    assert |more.Keys| == |calls.Keys| + 1;
  }

  lemma OneCallLess(calls: map<nat, Saved>, id: nat)
    requires id in calls
    ensures |calls - {id}| == |calls| - 1
  {
    var less := calls - {id};
    assert less.Keys == calls.Keys - {id};
    assert |less.Keys| == |calls.Keys| - 1;
  }

  // What the environment is while calls are in flight.

  /** The environment without credentials and config keys. */
  function Stripped(env: Env): Env {
    Without(Without(env, IsCredential), IsConfigKey)
  }

  /** Apart from the pinned variables, `env` is `entry` without credentials and config keys. */
  ghost predicate Quiet(env: Env, entry: Env) {
    AgreeOff(PINNED, env, Stripped(entry))
  }

  ghost predicate NoCredentials(env: Env) {
    forall n :: n in env ==> !NamesCredential(n)
  }

  lemma StrippedGet(env: Env, credential: string -> bool, configKey: string -> bool, n: string)
    ensures Get(Without(Without(env, credential), configKey), n) == if credential(n) || configKey(n) then None else Get(env, n)
  {
  }

  lemma PinnedOnly(env: Env, user: string, global: string)
    ensures AgreeOff(PINNED, Pinned(env, user, global), env)
  {
  }

  /** Right after a call began in `env`. */
  lemma BeginQuiets(env: Env, user: string, global: string)
    ensures Quiet(Inside(env, user, global), env)
  {
    PinnedOnly(Stripped(env), user, global);
  }

  lemma QuietIsClean(env: Env, entry: Env)
    requires Quiet(env, entry)
    ensures NoCredentials(env)
    ensures forall n :: n in env && IsConfigKey(n) ==> n in PINNED
  {
    PinnedNamesAreNoCredentials();
    forall n | n in env
      ensures !IsCredential(n) && !NamesCredential(n) && (IsConfigKey(n) ==> n in PINNED)
    {
      CredentialMeans(n);
      StrippedGet(entry, IsCredential, IsConfigKey, n);
      assert n !in PINNED ==> Get(env, n) == Get(Stripped(entry), n);
    }
  }

  /** A call that begins in a quiet environment touches the pinned variables alone. */
  lemma QuietTouches(env: Env, entry: Env)
    requires Quiet(env, entry)
    ensures SavedOn(env).Keys == PINNED && AgreeOff(PINNED, Stripped(env), env)
  {
    QuietIsClean(env, entry);
    assert Touched(env) == PINNED;
    forall n | n !in PINNED
      ensures Get(Stripped(env), n) == Get(env, n)
    {
      StrippedGet(env, IsCredential, IsConfigKey, n);
    }
  }

  lemma BeginStaysQuiet(env: Env, entry: Env, user: string, global: string)
    requires Quiet(env, entry)
    ensures Quiet(Inside(env, user, global), entry) && SavedOn(env).Keys == PINNED
  {
    QuietTouches(env, entry);
    PinnedOnly(Stripped(env), user, global);
  }

  lemma EndStaysQuiet(env: Env, entry: Env, saved: Saved)
    requires Quiet(env, entry) && saved.Keys == PINNED
    ensures Quiet(Restored(env, saved), entry)
  {
    forall n | n !in PINNED
      ensures Get(Restored(env, saved), n) == Get(env, n)
    {
      RestoredGet(env, saved, n);
    }
  }

  /** The call that began in `entry` brings it back, credentials and all. */
  lemma EndRestores(env: Env, entry: Env)
    requires Quiet(env, entry)
    ensures Restored(env, SavedOn(entry)) == entry
  {
    forall n
      ensures Get(Restored(env, SavedOn(entry)), n) == Get(entry, n)
    {
      RestoredGet(env, SavedOn(entry), n);
      StrippedGet(entry, IsCredential, IsConfigKey, n);
    }
    SameGets(Restored(env, SavedOn(entry)), entry);
  }

  // Schedules.

  /** Between two moments without a call, the first call to begin is the last to end; `first` is the one of the present period. */
  ghost predicate FirstOutlasts(s: State, first: nat, events: seq<Event>)
    requires IsRun(s, events)
    decreases |events|
  {
    events == [] ||
    match events[0]
    case Begin(id, _, _) => FirstOutlasts(Step(s, events[0]), if s.calls == map[] then id else first, events[1..])
    case Work(_) => FirstOutlasts(Step(s, events[0]), first, events[1..])
    case End(id) => (id == first ==> s.calls.Keys == {id}) && FirstOutlasts(Step(s, events[0]), first, events[1..])
  }

  /** At no moment with a call in flight is a credential-named variable set. */
  ghost predicate AlwaysClean(s: State, events: seq<Event>)
    requires IsRun(s, events)
    decreases |events|
  {
    && (s.calls != map[] ==> NoCredentials(s.env))
    && (events == [] || AlwaysClean(Step(s, events[0]), events[1..]))
  }

  /** The bodies change only variables that every scope pins. */
  ghost predicate TidyWork(events: seq<Event>) {
    forall i :: 0 <= i < |events| && events[i].Work? ==> forall env :: AgreeOff(PINNED, events[i].effect(env), env)
  }

  /** The first call holds what it found in `entry`, the others pinned variables alone. */
  ghost predicate Orderly(s: State, first: nat, entry: Env) {
    if s.calls == map[] then s.env == entry
    else
      && Quiet(s.env, entry) && first in s.calls && s.calls[first] == SavedOn(entry)
      && forall id :: id in s.calls && id != first ==> s.calls[id].Keys == PINNED
  }

  ghost function FirstAfter(s: State, first: nat, e: Event): nat {
    if e.Begin? && s.calls == map[] then e.id else first
  }

  lemma StepStaysOrderly(s: State, first: nat, entry: Env, e: Event)
    requires Orderly(s, first, entry) && Enabled(s, e) && (e.End? && e.id == first ==> s.calls.Keys == {first})
    requires e.Work? ==> forall env :: AgreeOff(PINNED, e.effect(env), env)
    ensures Orderly(Step(s, e), FirstAfter(s, first, e), entry)
  {
    match e
    case Begin(id, user, global) => BeginOrderly(s, first, entry, e);
    case Work(effect) =>
    case End(id) => EndOrderly(s, first, entry, id);
  }

  lemma BeginOrderly(s: State, first: nat, entry: Env, e: Event)
    requires Orderly(s, first, entry) && e.Begin? && Enabled(s, e)
    ensures Orderly(Step(s, e), FirstAfter(s, first, e), entry)
  {
    assert Step(s, e).calls != map[] by { assert e.id in Step(s, e).calls; }
    if s.calls == map[] {
      BeginQuiets(s.env, e.user, e.global);
    } else {
      BeginStaysQuiet(s.env, entry, e.user, e.global);
    }
  }

  lemma EndOrderly(s: State, first: nat, entry: Env, id: nat)
    requires Orderly(s, first, entry) && id in s.calls && (id == first ==> s.calls.Keys == {first})
    ensures Orderly(Step(s, End(id)), first, entry)
  {
    var t := Step(s, End(id));
    if id == first {
      EndRestores(s.env, entry);
      assert t.calls == map[];
    } else {
      EndStaysQuiet(s.env, entry, s.calls[id]);
      assert first in t.calls;
    }
  }

  /** If the first call ends before another, the credentials it found are set again under that other call. */
  lemma EarlyEndBares(s: State, first: nat, entry: Env, n: string)
    requires Orderly(s, first, entry) && first in s.calls && s.calls.Keys != {first} && n in entry && NamesCredential(n)
    ensures var t := Step(s, End(first));
            t.calls != map[] && t.env == entry && !NoCredentials(t.env)
  {
    EndRestores(s.env, entry);
    var other := AnotherCall(s.calls.Keys, first);
    assert other in Step(s, End(first)).calls;
  }

  lemma AnotherCall(calls: set<nat>, first: nat) returns (other: nat)
    requires first in calls && calls != {first}
    ensures other in calls && other != first
  {
    assert calls == (calls - {first}) + {first};
    other :| other in calls - {first};
  }

  /**
    * With a credential in the entry environment and bodies that keep to the pinned variables, no credential
    * is ever set while a call is in flight if and only if in each busy period the first call to begin is the
    * last to end.
    */
  lemma {:induction false} CleanExactlyWhenFirstOutlasts(s: State, first: nat, events: seq<Event>, entry: Env, n: string)
    requires Orderly(s, first, entry) && IsRun(s, events) && TidyWork(events) && n in entry && NamesCredential(n)
    ensures AlwaysClean(s, events) <==> FirstOutlasts(s, first, events)
    decreases |events|
  {
    if s.calls != map[] {
      QuietIsClean(s.env, entry);
    }
    if events != [] {
      var e, rest := events[0], events[1..];
      if e.End? && e.id == first && s.calls.Keys != {first} {
        EarlyEndBares(s, first, entry, n);
      } else {
        StepStaysOrderly(s, first, entry, e);
        TidyRest(events);
        CleanExactlyWhenFirstOutlasts(Step(s, e), FirstAfter(s, first, e), rest, entry, n);
      }
    }
  }

  lemma TidyRest(events: seq<Event>)
    requires events != [] && TidyWork(events)
    ensures TidyWork(events[1..])
  {
    assert forall i :: 0 <= i < |events[1..]| ==> events[1..][i] == events[i + 1];
  }

  /** Under such a schedule the environment is the entry one whenever no call is in flight. */
  lemma {:induction false} FirstOutlastingRestores(s: State, first: nat, events: seq<Event>, entry: Env)
    requires Orderly(s, first, entry) && IsRun(s, events) && TidyWork(events) && FirstOutlasts(s, first, events)
    ensures After(s, events).calls == map[] ==> After(s, events).env == entry
    decreases |events|
  {
    if events != [] {
      StepStaysOrderly(s, first, entry, events[0]);
      TidyRest(events);
      FirstOutlastingRestores(Step(s, events[0]), FirstAfter(s, first, events[0]), events[1..], entry);
    }
  }

  /** Both, for every run from a moment without calls. */
  lemma {:induction false} ScheduleDecides(entry: Env, open: int, events: seq<Event>)
    requires IsRun(State(entry, open, map[]), events) && TidyWork(events)
    ensures var start := State(entry, open, map[]);
            && (!NoCredentials(entry) ==> (AlwaysClean(start, events) <==> FirstOutlasts(start, 0, events)))
            && (FirstOutlasts(start, 0, events) && After(start, events).calls == map[] ==> After(start, events).env == entry)
  {
    var start := State(entry, open, map[]);
    if !NoCredentials(entry) {
      var n :| n in entry && NamesCredential(n);
      CleanExactlyWhenFirstOutlasts(start, 0, events, entry, n);
    }
    if FirstOutlasts(start, 0, events) {
      FirstOutlastingRestores(start, 0, events, entry);
    }
  }

  /**
    * The shortest schedule that breaks it: A begins, B begins, A ends, B ends. Once A has ended, all that
    * the entry environment held is back while B is in flight; once B has ended, A's config path remains.
    */
  lemma {:induction false} OverlapLeaks(start: State, a: Event, b: Event)
    requires start.calls == map[] && a.Begin? && b.Begin? && a.id != b.id
    ensures var both := Step(Step(start, a), b);
            var late := Step(both, End(a.id));
            var end := Step(late, End(b.id));
            && late.open == start.open + 1 && late.env == start.env
            && end.open == start.open && Get(end.env, USER_CONFIG) == Some(a.user)
  {
    var entry, one := start.env, Inside(start.env, a.user, a.global);
    BeginTwice(start, a, b);
    EndTwice(Step(Step(start, a), b), a.id, b.id);
    BeginQuiets(entry, a.user, a.global);
    BeginStaysQuiet(one, entry, b.user, b.global);
    EndRestores(Inside(one, b.user, b.global), entry);
    LateEndWrites(entry, a.user, a.global);
  }

  lemma BeginTwice(start: State, a: Event, b: Event)
    requires a.Begin? && b.Begin? && a.id != b.id && Enabled(start, a) && Enabled(Step(start, a), b)
    ensures var one, both := Step(start, a), Step(Step(start, a), b);
            && one.env == Inside(start.env, a.user, a.global) && both.env == Inside(one.env, b.user, b.global)
            && both.open == start.open + 2 && a.id in both.calls && both.calls[a.id] == SavedOn(start.env)
            && b.id in both.calls && both.calls[b.id] == SavedOn(one.env)
  {
  }

  lemma EndTwice(both: State, a: nat, b: nat)
    requires a in both.calls && b in both.calls && a != b
    ensures var late := Step(both, End(a));
            && late.env == Restored(both.env, both.calls[a]) && late.open == both.open - 1 && b in late.calls
            && Step(late, End(b)).env == Restored(late.env, both.calls[b]) && Step(late, End(b)).open == both.open - 2
  {
  }

  lemma LateEndWrites(entry: Env, user: string, global: string)
    ensures Get(Restored(entry, SavedOn(Inside(entry, user, global))), USER_CONFIG) == Some(user)
  {
    BodyIsClean(entry, user, global);
    RestoredGet(entry, SavedOn(Inside(entry, user, global)), USER_CONFIG);
  }
}
