/** `withNpmRegistryAccess`: a scope that edits the environment for one call and puts it back. */
module RegistryScope {
  import opened Outcome

  type Env = map<string, string>

  /** The first value seen of each variable a scope touches; `None` where it was unset. */
  type Saved = map<string, Option<string>>

  const REGISTRY_HOST := "registry.npmjs.org"
  const REGISTRY_URL := "https://registry.npmjs.org/"
  const USER_CONFIG := "npm_config_userconfig"
  const GLOBAL_CONFIG := "npm_config_globalconfig"
  const REGISTRY := "npm_config_registry"

  function Get(env: Env, n: string): Option<string> {
    if n in env then Some(env[n]) else None
  }

  function Assign(env: Env, n: string, v: Option<string>): Env {
    if v.Some? then env[n := v.value] else env - {n}
  }

  function Without(env: Env, drop: string -> bool): Env {
    map n | n in env && !drop(n) :: env[n]
  }

  function Matching(env: Env, drop: string -> bool): set<string> {
    set n | n in env && drop(n)
  }

  function LowerChar(c: char): char {
    if 'A' <= c <= 'Z' then (c as int + 32) as char else c
  }

  function Lower(s: string): string {
    seq(|s|, i requires 0 <= i < |s| => LowerChar(s[i]))
  }

  predicate Contains(s: string, part: string) {
    exists i :: 0 <= i <= |s| && OccursAt(s, part, i)
  }

  predicate OccursAt(s: string, part: string, i: nat) {
    i + |part| <= |s| && s[i..i + |part|] == part
  }

  /** A variable that can carry a registry credential. */
  predicate IsCredential(name: string) {
    var n := Lower(name);
    || n == "node_auth_token" || n == "npm_token"
    || ("npm_config_" <= n && (Contains(n, "auth") || Contains(n, "token") || Contains(n, "password")
                               || Contains(n, "passwd") || Contains(n, "_secret")))
  }

  /** Some spelling of one of the three npm config keys. */
  predicate IsConfigKey(name: string) {
    Lower(name) in {USER_CONFIG, GLOBAL_CONFIG, REGISTRY}
  }

  function WithHost(current: Option<string>): string {
    if current.None? || current.value == "" then REGISTRY_HOST else current.value + "," + REGISTRY_HOST
  }

  // Saving and restoring.

  /** `saved` has the entry value of every variable touched; the others still have theirs. */
  ghost predicate Tracks(entry: Env, env: Env, saved: Saved) {
    forall n :: if n in saved then saved[n] == Get(entry, n) else Get(env, n) == Get(entry, n)
  }

  /** The restore loop's effect. */
  function Restored(env: Env, saved: Saved): Env {
    map n | n in env.Keys + saved.Keys && (if n in saved then saved[n].Some? else n in env) ::
      if n in saved then saved[n].value else env[n]
  }

  lemma RestoredGet(env: Env, saved: Saved, n: string)
    ensures Get(Restored(env, saved), n) == if n in saved then saved[n] else Get(env, n)
  {
  }

  lemma SameGets(a: Env, b: Env)
    requires forall n :: Get(a, n) == Get(b, n)
    ensures a == b
  {
    forall n
      ensures n in a <==> n in b
      ensures n in a ==> a[n] == b[n]
    {
      assert Get(a, n) == Get(b, n);
    }
  }

  /**
    * Whatever the body did, leaving the scope brings back the entry environment exactly when the body
    * left alone every variable the scope had not touched.
    */
  lemma RestoresExactly(entry: Env, inside: Env, saved: Saved, after: Env)
    requires Tracks(entry, inside, saved)
    ensures Restored(after, saved) == entry <==> forall n :: n !in saved ==> Get(after, n) == Get(inside, n)
  {
    if Restored(after, saved) == entry {
      forall n | n !in saved
        ensures Get(after, n) == Get(inside, n)
      {
        RestoredGet(after, saved, n);
      }
    } else if forall n :: n !in saved ==> Get(after, n) == Get(inside, n) {
      forall n
        ensures Get(Restored(after, saved), n) == Get(entry, n)
      {
        RestoredGet(after, saved, n);
      }
      SameGets(Restored(after, saved), entry);
    }
  }

  /** The process: its environment and the open-scope counter. */
  class Process {
    var env: Env
    var open: nat

    constructor (env: Env)
      ensures this.env == env && open == 0
    {
      this.env, open := env, 0;
    }
  }

  lemma DropNone(env: Env, drop: string -> bool)
    ensures Without(env, n => drop(n) && n !in env.Keys) == env
    ensures Matching(env, n => drop(n) && n !in env.Keys) == {}
  {
  }

  lemma DropOne(env: Env, drop: string -> bool, todo: set<string>, name: string)
    requires name in todo && todo <= env.Keys
    ensures var was, now := n => drop(n) && n !in todo, n => drop(n) && n !in todo - {name};
            && Without(env, now) == (if drop(name) then Assign(Without(env, was), name, None) else Without(env, was))
            && Matching(env, now) == Matching(env, was) + if drop(name) then {name} else {}
  {
  }

  lemma DropAll(env: Env, drop: string -> bool, todo: set<string>)
    requires todo == {}
    ensures Without(env, n => drop(n) && n !in todo) == Without(env, drop)
    ensures Matching(env, n => drop(n) && n !in todo) == Matching(env, drop)
  {
  }

  /** The `saved` map of one call and its `set` closure. */
  class Scope {
    const process: Process
    var saved: Saved

    constructor (process: Process)
      ensures this.process == process && saved == map[]
    {
      this.process, saved := process, map[];
    }

    /** `set(name, value)`: remembers the first value it replaces. */
    method Set(name: string, value: Option<string>, ghost entry: Env)
      requires Tracks(entry, process.env, saved)
      modifies this`saved, process`env
      ensures process.env == Assign(old(process.env), name, value)
      ensures saved.Keys == old(saved.Keys) + {name} && Tracks(entry, process.env, saved)
    {
      if name !in saved {
        saved := saved[name := Get(process.env, name)];
      }
      process.env := Assign(process.env, name, value);
    }

    /** `for (const name of Object.keys(process.env)) if (drop(name)) set(name, undefined)`. */
    method Drop(drop: string -> bool, ghost entry: Env)
      requires Tracks(entry, process.env, saved)
      modifies this`saved, process`env
      ensures process.env == Without(old(process.env), drop)
      ensures Tracks(entry, process.env, saved)
      ensures saved.Keys == old(saved.Keys) + Matching(old(process.env), drop)
    {
      var todo := process.env.Keys;
      ghost var before, known := process.env, saved.Keys;
      DropNone(before, drop);
      while todo != {}
        invariant todo <= before.Keys && Tracks(entry, process.env, saved)
        invariant process.env == Without(before, n => drop(n) && n !in todo)
        invariant saved.Keys == known + Matching(before, n => drop(n) && n !in todo)
        decreases todo
      {
        var name :| name in todo;
        DropOne(before, drop, todo, name);
        if drop(name) {
          Set(name, None, entry);
        }
        todo := todo - {name};
      }
      DropAll(before, drop, todo);
    }

    /** The three config keys, whose names are `a`, `b` and `c`. */
    method Configure(a: string, b: string, c: string, user: string, global: string, ghost entry: Env)
      requires Tracks(entry, process.env, saved)
      modifies this`saved, process`env
      ensures process.env == Configured(old(process.env), a, b, c, user, global)
      ensures saved.Keys == old(saved.Keys) + {a, b, c} && Tracks(entry, process.env, saved)
    {
      Set(a, Some(user), entry);
      Set(b, Some(global), entry);
      Set(c, Some(REGISTRY_URL), entry);
    }

    /** The registry host joins a proxy exception list. */
    method AddHost(name: string, ghost entry: Env)
      requires Tracks(entry, process.env, saved)
      modifies this`saved, process`env
      ensures process.env == HostAdded(old(process.env), name)
      ensures saved.Keys == old(saved.Keys) + {name} && Tracks(entry, process.env, saved)
    {
      var current := Get(process.env, name);
      Set(name, Some(WithHost(current)), entry);
    }
  }

  /** The five variables a scope always sets. */
  function Pinned(env: Env, user: string, global: string): Env {
    HostAdded(HostAdded(Configured(env, USER_CONFIG, GLOBAL_CONFIG, REGISTRY, user, global), "NO_PROXY"), "no_proxy")
  }

  function Configured(env: Env, a: string, b: string, c: string, user: string, global: string): Env {
    Assign(Assign(Assign(env, a, Some(user)), b, Some(global)), c, Some(REGISTRY_URL))
  }

  function HostAdded(env: Env, name: string): Env {
    Assign(env, name, Some(WithHost(Get(env, name))))
  }

  const PINNED := {USER_CONFIG, GLOBAL_CONFIG, REGISTRY, "NO_PROXY", "no_proxy"}

  /** The variables a scope entered from `env` touches. */
  function Touched(env: Env): set<string> {
    Matching(env, IsCredential) + Matching(env, IsConfigKey) + PINNED
  }

  /** What it remembers of them. */
  function SavedOn(env: Env): Saved {
    map n | n in Touched(env) :: Get(env, n)
  }

  lemma TracksSaved(entry: Env, env: Env, saved: Saved)
    requires Tracks(entry, env, saved) && saved.Keys == Touched(entry)
    ensures saved == SavedOn(entry)
  {
  }

  /** The environment the body sees. */
  function Inside(env: Env, user: string, global: string): Env {
    Pinned(Without(Without(env, IsCredential), IsConfigKey), user, global)
  }

  /** The call up to `fn()`. */
  method Enter(process: Process, user: string, global: string) returns (scope: Scope)
    modifies process
    ensures fresh(scope) && scope.process == process && process.open == old(process.open) + 1
    ensures process.env == Inside(old(process.env), user, global)
    ensures scope.saved == SavedOn(old(process.env)) && Tracks(old(process.env), process.env, scope.saved)
  {
    ghost var entry := process.env;
    scope := Prepare(process, IsCredential, IsConfigKey, user, global);
    TracksSaved(entry, process.env, scope.saved);
  }

  method Prepare(process: Process, credential: string -> bool, configKey: string -> bool, user: string, global: string)
    returns (scope: Scope)
    modifies process
    ensures fresh(scope) && scope.process == process && process.open == old(process.open) + 1
    ensures process.env == Pinned(Without(Without(old(process.env), credential), configKey), user, global)
    ensures Tracks(old(process.env), process.env, scope.saved)
    ensures scope.saved.Keys == Matching(old(process.env), credential) + Matching(old(process.env), configKey) + PINNED
  {
    ghost var entry := process.env;
    scope := new Scope(process);
    process.open := process.open + 1;
    scope.Drop(credential, entry);
    scope.Drop(configKey, entry);
    scope.Configure(USER_CONFIG, GLOBAL_CONFIG, REGISTRY, user, global, entry);
    scope.AddHost("NO_PROXY", entry);
    scope.AddHost("no_proxy", entry);
    MatchingRest(entry, credential, configKey);
  }

  lemma MatchingRest(env: Env, credential: string -> bool, configKey: string -> bool)
    ensures Matching(env, credential) + Matching(Without(env, credential), configKey)
            == Matching(env, credential) + Matching(env, configKey)
  {
  }

  /** The `finally` block, whether the body returned or threw. */
  method Leave(process: Process, scope: Scope)
    requires process.open >= 1
    modifies process
    ensures process.open == old(process.open) - 1 && process.env == Restored(old(process.env), scope.saved)
  {
    process.open := process.open - 1;
    var todo := scope.saved.Keys;
    ghost var body, done: Saved := process.env, map[];
    while todo != {}
      invariant todo <= scope.saved.Keys && process.open == old(process.open) - 1
      invariant done == map n | n in scope.saved && n !in todo :: scope.saved[n]
      invariant process.env == Restored(body, done)
      decreases todo
    {
      var name :| name in todo;
      RestoreOne(body, done, name, scope.saved[name]);
      process.env := Assign(process.env, name, scope.saved[name]);
      todo := todo - {name};
      done := done[name := scope.saved[name]];
    }
    assert done == scope.saved;
  }

  lemma RestoreOne(env: Env, saved: Saved, name: string, value: Option<string>)
    ensures Assign(Restored(env, saved), name, value) == Restored(env, saved[name := value])
  {
    forall n
      ensures Get(Assign(Restored(env, saved), name, value), n) == Get(Restored(env, saved[name := value]), n)
    {
      RestoredGet(env, saved, n);
      RestoredGet(env, saved[name := value], n);
    }
    SameGets(Assign(Restored(env, saved), name, value), Restored(env, saved[name := value]));
  }

  // What the body finds.

  lemma LowerOfKeys()
    ensures Lower(USER_CONFIG) == USER_CONFIG && Lower(GLOBAL_CONFIG) == GLOBAL_CONFIG && Lower(REGISTRY) == REGISTRY
    ensures Lower("NO_PROXY") == "no_proxy" == Lower("no_proxy")
  {
  }

  lemma Occurs(s: string, part: string, i: nat, k: nat)
    requires k < |part|
    ensures OccursAt(s, part, i) ==> i + k < |s| && s[i + k] == part[k]
  {
    assert OccursAt(s, part, i) ==> s[i..i + |part|][k] == s[i + k];
  }

  lemma MissingLetter(s: string, part: string, k: nat)
    requires k < |part| && part[k] !in s
    ensures !Contains(s, part)
  {
    forall i: nat
      ensures !OccursAt(s, part, i)
    {
      Occurs(s, part, i, k);
    }
  }

  lemma MissingPair(s: string, part: string)
    requires |part| >= 2 && forall i, j :: 0 <= i < |s| && j == i + 1 < |s| ==> s[i] != part[0] || s[j] != part[1]
    ensures !Contains(s, part)
  {
    forall i: nat
      ensures !OccursAt(s, part, i)
    {
      Occurs(s, part, i, 0);
      Occurs(s, part, i, 1);
    }
  }

  /** A text that names none of the credential words. */
  ghost predicate Harmless(n: string) {
    !Contains(n, "auth") && !Contains(n, "token") && !Contains(n, "password") && !Contains(n, "passwd") && !Contains(n, "_secret")
  }

  lemma UserConfigIsHarmless()
    ensures Harmless(USER_CONFIG)
  {
    MissingLetter(USER_CONFIG, "auth", 0);
    MissingLetter(USER_CONFIG, "token", 0);
    MissingLetter(USER_CONFIG, "password", 1);
    MissingLetter(USER_CONFIG, "passwd", 1);
    MissingLetter(USER_CONFIG, "_secret", 6);
  }

  lemma GlobalConfigIsHarmless()
    ensures Harmless(GLOBAL_CONFIG)
  {
    MissingLetter(GLOBAL_CONFIG, "auth", 2);
    MissingLetter(GLOBAL_CONFIG, "token", 0);
    MissingLetter(GLOBAL_CONFIG, "password", 4);
    MissingLetter(GLOBAL_CONFIG, "passwd", 4);
    MissingLetter(GLOBAL_CONFIG, "_secret", 6);
  }

  lemma RegistryIsHarmless()
    ensures Harmless(REGISTRY)
  {
    MissingLetter(REGISTRY, "auth", 0);
    MissingLetter(REGISTRY, "token", 2);
    MissingLetter(REGISTRY, "password", 1);
    MissingLetter(REGISTRY, "passwd", 1);
    MissingPair(REGISTRY, "_secret");
  }

  lemma HarmlessIsNoCredential(name: string)
    requires Harmless(Lower(name)) || |Lower(name)| == 8
    requires Lower(name) != "node_auth_token" && Lower(name) != "npm_token"
    ensures !IsCredential(name)
  {
  }

  lemma PinnedNamesAreNoCredentials()
    ensures forall n :: n in PINNED ==> !IsCredential(n)
  {
    LowerOfKeys();
    UserConfigIsHarmless();
    GlobalConfigIsHarmless();
    RegistryIsHarmless();
    HarmlessIsNoCredential(USER_CONFIG);
    HarmlessIsNoCredential(GLOBAL_CONFIG);
    HarmlessIsNoCredential(REGISTRY);
    HarmlessIsNoCredential("NO_PROXY");
    HarmlessIsNoCredential("no_proxy");
  }

  // The names in their own words.

  /** `text` is `word`, a lower-case word, in any capitalisation. */
  ghost predicate Spells(text: string, word: string) {
    |text| == |word| && forall i :: 0 <= i < |text| ==> SameLetter(text[i], word[i])
  }

  ghost predicate SameLetter(c: char, lower: char) {
    (c == lower && !('A' <= c <= 'Z')) || ('A' <= c <= 'Z' && c as int + 32 == lower as int)
  }

  ghost predicate Mentions(text: string, word: string) {
    exists i :: 0 <= i && MentionsAt(text, word, i)
  }

  ghost predicate MentionsAt(text: string, word: string, i: nat) {
    i + |word| <= |text| && Spells(text[i..i + |word|], word)
  }

  /** The two token variables, and npm settings that speak of a credential, in any capitalisation. */
  ghost predicate NamesCredential(name: string) {
    || Spells(name, "node_auth_token") || Spells(name, "npm_token")
    || (MentionsAt(name, "npm_config_", 0)
        && (Mentions(name, "auth") || Mentions(name, "token") || Mentions(name, "password") || Mentions(name, "passwd")
            || Mentions(name, "_secret")))
  }

  ghost predicate NamesConfigKey(name: string) {
    Spells(name, "npm_config_userconfig") || Spells(name, "npm_config_globalconfig") || Spells(name, "npm_config_registry")
  }

  lemma SpellsMeans(text: string, word: string)
    ensures Lower(text) == word <==> Spells(text, word)
  {
    forall i | 0 <= i < |text| && i < |word|
      ensures Lower(text)[i] == word[i] <==> SameLetter(text[i], word[i])
    {
    }
  }

  lemma MentionsAtMeans(text: string, word: string, i: nat)
    ensures OccursAt(Lower(text), word, i) <==> MentionsAt(text, word, i)
  {
    if i + |word| <= |text| {
      var part := text[i..i + |word|];
      SpellsMeans(part, word);
      assert Lower(part) == Lower(text)[i..i + |word|];
    }
  }

  lemma MentionsMeans(text: string, word: string)
    ensures Contains(Lower(text), word) <==> Mentions(text, word)
  {
    forall i: nat
      ensures OccursAt(Lower(text), word, i) <==> MentionsAt(text, word, i)
    {
      MentionsAtMeans(text, word, i);
    }
  }

  lemma CredentialMeans(name: string)
    ensures IsCredential(name) <==> NamesCredential(name)
  {
    SpellsMeans(name, "node_auth_token");
    SpellsMeans(name, "npm_token");
    MentionsAtMeans(name, "npm_config_", 0);
    MentionsMeans(name, "auth");
    MentionsMeans(name, "token");
    MentionsMeans(name, "password");
    MentionsMeans(name, "passwd");
    MentionsMeans(name, "_secret");
    PrefixOccurs(Lower(name), "npm_config_");
  }

  lemma PrefixOccurs(s: string, part: string)
    ensures part <= s <==> OccursAt(s, part, 0)
  {
    if OccursAt(s, part, 0) {
      assert s[0..|part|] == part;
    }
  }

  lemma ConfigKeyMeans(name: string)
    ensures IsConfigKey(name) <==> NamesConfigKey(name)
  {
    SpellsMeans(name, USER_CONFIG);
    SpellsMeans(name, GLOBAL_CONFIG);
    SpellsMeans(name, REGISTRY);
  }

  /** An exception list with the registry's host at its end. */
  ghost function Excepting(list: Option<string>): string {
    match list
    case None => "registry.npmjs.org"
    case Some(hosts) => if hosts == "" then "registry.npmjs.org" else hosts + "," + "registry.npmjs.org"
  }

  /** The five variables a scope always sets. */
  ghost predicate AlwaysSet(name: string) {
    || name == "npm_config_userconfig" || name == "npm_config_globalconfig" || name == "npm_config_registry"
    || name == "NO_PROXY" || name == "no_proxy"
  }

  lemma TouchedMeans(env: Env, name: string)
    ensures name in Touched(env) <==> AlwaysSet(name) || (name in env && (NamesCredential(name) || NamesConfigKey(name)))
  {
    CredentialMeans(name);
    ConfigKeyMeans(name);
  }

  /**
    * The body finds no variable that names a credential, in any capitalisation, and one spelling of each npm
    * config key, pinned. The registry's host stands behind both exception lists, and nothing else is changed.
    */
  lemma BodyIsClean(env: Env, user: string, global: string)
    ensures var inside := Inside(env, user, global);
            && (forall n :: n in inside ==> !NamesCredential(n))
            && (forall n :: n in inside && NamesConfigKey(n) ==> AlwaysSet(n))
            && Get(inside, "npm_config_userconfig") == Some(user) && Get(inside, "npm_config_globalconfig") == Some(global)
            && Get(inside, "npm_config_registry") == Some("https://registry.npmjs.org/")
            && Get(inside, "NO_PROXY") == Some(Excepting(Get(env, "NO_PROXY")))
            && Get(inside, "no_proxy") == Some(Excepting(Get(env, "no_proxy")))
            && (forall n :: !AlwaysSet(n) && !NamesCredential(n) && !NamesConfigKey(n) ==> Get(inside, n) == Get(env, n))
  {
    PinnedNamesAreNoCredentials();
    LowerOfKeys();
    CleanWith(env, IsCredential, IsConfigKey, user, global);
    ListsAreNoKeys();
    OthersAreKept(env, IsCredential, IsConfigKey, user, global);
    forall n
      ensures IsCredential(n) <==> NamesCredential(n)
      ensures IsConfigKey(n) <==> NamesConfigKey(n)
      ensures n in PINNED <==> AlwaysSet(n)
    {
      CredentialMeans(n);
      ConfigKeyMeans(n);
    }
  }

  lemma HostMeans(list: Option<string>)
    ensures WithHost(list) == Excepting(list)
  {
  }

  lemma ListsAreNoKeys()
    ensures !IsConfigKey("NO_PROXY") && !IsConfigKey("no_proxy")
  {
    LowerOfKeys();
    assert |"no_proxy"| == 8 && |REGISTRY| == 19 && |USER_CONFIG| == 21 && |GLOBAL_CONFIG| == 23;
  }

  lemma OthersAreKept(env: Env, credential: string -> bool, configKey: string -> bool, user: string, global: string)
    requires forall n :: n == "NO_PROXY" || n == "no_proxy" ==> !credential(n) && !configKey(n)
    ensures var inside := Pinned(Without(Without(env, credential), configKey), user, global);
            && Get(inside, "NO_PROXY") == Some(Excepting(Get(env, "NO_PROXY")))
            && Get(inside, "no_proxy") == Some(Excepting(Get(env, "no_proxy")))
            && (forall n :: n !in PINNED && !credential(n) && !configKey(n) ==> Get(inside, n) == Get(env, n))
  {
    HostMeans(Get(env, "NO_PROXY"));
    HostMeans(Get(env, "no_proxy"));
    assert "NO_PROXY"[0] == 'N' && "no_proxy"[0] == 'n' && |"NO_PROXY"| == 8 && |"no_proxy"| == 8;
    assert |REGISTRY| == 19 && |USER_CONFIG| == 21 && |GLOBAL_CONFIG| == 23;
  }

  /** Pinning adds only the five names, and of these only the three keys are config keys. */
  lemma CleanWith(env: Env, credential: string -> bool, configKey: string -> bool, user: string, global: string)
    ensures var inside := Pinned(Without(Without(env, credential), configKey), user, global);
            && (forall n :: n in inside ==> n in PINNED || (!credential(n) && !configKey(n)))
            && Get(inside, USER_CONFIG) == Some(user) && Get(inside, GLOBAL_CONFIG) == Some(global)
            && Get(inside, REGISTRY) == Some(REGISTRY_URL)
  {
    assert USER_CONFIG[11] != GLOBAL_CONFIG[11] && |REGISTRY| == 19 && |USER_CONFIG| == 21 && |GLOBAL_CONFIG| == 23;
  }

  // Nested scopes.

  /** What runs inside a scope: steps that change the environment, further scopes, and a throw. */
  datatype Program =
    | Return
    | Throw
    | Act(effect: Env -> Env, next: Program)
    | Nest(user: string, global: string, body: Program, next: Program)

  datatype Exit = Exit(env: Env, thrown: bool)

  /** A throw skips the rest, but every scope it passes is left through its `finally`. */
  function Exec(p: Program, env: Env): Exit
    decreases p, 0
  {
    match p
    case Return => Exit(env, false)
    case Throw => Exit(env, true)
    case Act(effect, next) => Exec(next, effect(env))
    case Nest(user, global, body, next) =>
      var exit := Call(body, env, user, global);
      if exit.thrown then exit else Exec(next, exit.env)
  }

  /** One whole `withNpmRegistryAccess` around `body`. */
  function Call(body: Program, env: Env, user: string, global: string): Exit
    decreases body, 1
  {
    var exit := Exec(body, Inside(env, user, global));
    exit.(env := Restored(exit.env, SavedOn(env)))
  }

  ghost predicate AgreeOff(names: set<string>, a: Env, b: Env) {
    forall n :: n !in names ==> Get(a, n) == Get(b, n)
  }

  /** Every step of the program's own changes only variables that each scope pins. */
  ghost predicate Tidy(p: Program) {
    match p
    case Return => true
    case Throw => true
    case Act(effect, next) => (forall env :: AgreeOff(PINNED, effect(env), env)) && Tidy(next)
    case Nest(_, _, body, next) => Tidy(body) && Tidy(next)
  }

  lemma InsideIsTracked(env: Env, user: string, global: string)
    ensures Tracks(env, Inside(env, user, global), SavedOn(env))
  {
    InsideTracksWith(env, IsCredential, IsConfigKey, user, global);
  }

  lemma InsideTracksWith(env: Env, credential: string -> bool, configKey: string -> bool, user: string, global: string)
    ensures AgreeOff(Matching(env, credential) + Matching(env, configKey) + PINNED,
                     Pinned(Without(Without(env, credential), configKey), user, global), env)
  {
  }

  /** A call ends in the environment it began in exactly when its body changed only touched variables. */
  lemma {:induction false} CallRestoresExactly(body: Program, env: Env, user: string, global: string)
    ensures Call(body, env, user, global).env == env
            <==> AgreeOff(Touched(env), Exec(body, Inside(env, user, global)).env, Inside(env, user, global))
  {
    InsideIsTracked(env, user, global);
    RestoresExactly(env, Inside(env, user, global), SavedOn(env), Exec(body, Inside(env, user, global)).env);
  }

  lemma {:induction false} TidyKeepsOthers(p: Program, env: Env)
    requires Tidy(p)
    ensures AgreeOff(PINNED, Exec(p, env).env, env)
  {
    match p
    case Return =>
    case Throw =>
    case Act(effect, next) => TidyKeepsOthers(next, effect(env));
    case Nest(user, global, body, next) =>
      TidyKeepsOthers(body, Inside(env, user, global));
      CallRestoresExactly(body, env, user, global);
      TidyKeepsOthers(next, env);
  }

  /** So a call around any nesting of calls, returning or throwing, leaves no trace. */
  lemma NestedCallsRestore(body: Program, env: Env, user: string, global: string)
    requires Tidy(body)
    ensures Call(body, env, user, global).env == env
  {
    TidyKeepsOthers(body, Inside(env, user, global));
    CallRestoresExactly(body, env, user, global);
  }
}
