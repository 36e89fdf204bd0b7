/** Configuration: merging the project and the user file, resolving every key against flags and
    environment, and the provider triple (crates/tole-cli/src/config.rs,
    crates/tole-cli/src/config_apply.rs). */
module Config {
  import opened Common
  import opened Text

  datatype Source = Flag | Env | Project | User | Default

  datatype Value =
    | Words(s: string)
    | Items(items: seq<string>)
    | Switch(on: bool)
    | Number(n: nat)
    | Ratio(r: real)

  datatype Key =
    | Model | BaseUrl | SessionsDir | Workspace | PlanMode | Memory | Trust | Allow | McpServer | NoAutoMcp
    | OnPretool | OnPosttool | OnTurnend | Skill | NoSkills | SystemPrompt | ContextWindow | CompactAt
    | NoCompaction | ReasoningEffort | MaxSteps | MaxMinutes | MaxTokens | Verify | VerifyTimeout

  predicate IsSwitch(k: Key) { k.PlanMode? || k.NoAutoMcp? || k.NoSkills? || k.NoCompaction? }

  predicate IsProvider(k: Key) { k.Model? || k.BaseUrl? }

  predicate IsList(k: Key)
  {
    k.Trust? || k.Allow? || k.McpServer? || k.OnPretool? || k.OnPosttool? || k.OnTurnend? || k.Skill?
  }

  /** What one file, the command line or the environment says, key by key. */
  type Layer = map<Key, Value>

  /** Blank texts and empty lists count as unset. */
  predicate IsSet(v: Value) { (v.Words? ==> Trim(v.s) != "") && (v.Items? ==> v.items != []) }

  function Lookup(m: Layer, k: Key): Option<Value> { if k in m then Some(m[k]) else None }

  function OnlySet(v: Option<Value>): Option<Value> { if v.Some? && IsSet(v.value) then v else None }

  // ------------------------------------------------------- the two-stage resolution

  datatype Merged = Merged(values: Layer, userKeys: set<Key>)

  /** The project value when it is set, else the user value when that is set; the flag says that the
      user layer supplied it. */
  function Pick(p: Option<Value>, u: Option<Value>): (Option<Value>, bool)
  {
    if p.Some? && IsSet(p.value) then (p, false)
    else if u.Some? && IsSet(u.value) then (u, true)
    else (p, false)
  }

  function Layered(project: Layer, user: Layer): Merged
  {
    Merged(
      map k | k in project.Keys + user.Keys && Pick(Lookup(project, k), Lookup(user, k)).0.Some? ::
        Pick(Lookup(project, k), Lookup(user, k)).0.value,
      set k | k in user.Keys && Pick(Lookup(project, k), Lookup(user, k)).1)
  }

  /** A resolved value and where it came from; for a provider variable also the position of its prefix. */
  datatype Eff = Eff(value: Value, source: Source, prefix: Option<nat>)

  /** The environment: the variables of single keys, and the raw variables of the provider prefixes. */
  datatype Environment = Environment(vars: Layer, prefixes: seq<Prefix>)

  function Resolve(flag: Option<Value>, env: Option<Value>, cfg: Option<Value>): Option<Eff>
  {
    if flag.Some? then Some(Eff(flag.value, Flag, None))
    else if env.Some? then Some(Eff(env.value, Env, None))
    else if cfg.Some? then Some(Eff(cfg.value, Project, None))
    else None
  }

  function ResolveOr(flag: Option<Value>, env: Option<Value>, cfg: Option<Value>, default: Value): Option<Eff>
  {
    var e := Resolve(flag, env, cfg);
    if e.Some? then e else Some(Eff(default, Default, None))
  }

  /** The highest non-empty list replaces the whole list. */
  function ResolveList(flag: Option<Value>, env: Option<Value>, cfg: Option<Value>): Option<Eff>
  {
    if flag.Some? && IsSet(flag.value) then Some(Eff(flag.value, Flag, None))
    else if env.Some? && IsSet(env.value) then Some(Eff(env.value, Env, None))
    else if cfg.Some? && IsSet(cfg.value) then Some(Eff(cfg.value, Project, None))
    else None
  }

  /** A flag can only turn a setting on. */
  function ResolveBool(flag: bool, cfg: Option<Value>): Option<Eff>
  {
    if flag then Some(Eff(Switch(true), Flag, None))
    else if cfg.Some? then Some(Eff(cfg.value, Project, None))
    else Some(Eff(Switch(false), Default, None))
  }

  const DEFAULT_SESSIONS_DIR := ".tole/sessions"
  const DEFAULT_VERIFY_TIMEOUT_SECS: nat := 300
  /** The compaction policy's default. */
  const DEFAULT_AT := 0.8

  function Lower(s: string): string { if s == "" then "" else [LowerAscii(s[0])] + Lower(s[1..]) }

  const REASONING_EFFORTS := ["minimal", "low", "medium", "high"]

  /** The canonical spelling of a reasoning effort; an invalid one stays as typed. */
  function Canonical(s: string): string
  {
    if Lower(Trim(s)) in REASONING_EFFORTS then Lower(Trim(s)) else s
  }

  /** How a resolved value is stored: the memory location without surrounding blanks, the reasoning
      effort in its canonical spelling. */
  function Written(k: Key, e: Option<Eff>): Option<Eff>
  {
    if e.None? || !e.value.value.Words? then e
    else if k.Memory? then Some(e.value.(value := Words(Trim(e.value.value.s))))
    else if k.ReasoningEffort? then Some(e.value.(value := Words(Canonical(e.value.value.s))))
    else e
  }

  // --------------------------------------------------------------- the provider triple

  /** The variables of one prefix (`TOLE_`, then `OPENAI_`). */
  datatype Prefix = Prefix(baseUrl: Option<string>, model: Option<string>, key: Option<string>)

  /** `env_nonblank`: trimmed, absent when blank. */
  function Nonblank(v: Option<string>): Option<string>
  {
    if v.Some? && Trim(v.value) != "" then Some(Trim(v.value)) else None
  }

  function Cleaned(raw: seq<Prefix>): (prefixes: seq<Prefix>)
    ensures |prefixes| == |raw|
    ensures forall i :: 0 <= i < |raw| ==>
              prefixes[i] == Prefix(Nonblank(raw[i].baseUrl), Nonblank(raw[i].model), Nonblank(raw[i].key))
  {
    seq(|raw|, i requires 0 <= i < |raw| =>
      Prefix(Nonblank(raw[i].baseUrl), Nonblank(raw[i].model), Nonblank(raw[i].key)))
  }

  datatype Provider = Provider(baseUrl: string, model: string, key: string)

  datatype Chosen = Chosen(prefix: nat, provider: Provider, baseFrom: Source, modelFrom: Source)

  /** The first prefix whose whole triple is in the environment. */
  function FirstComplete(env: seq<Prefix>, i: nat): Option<Chosen>
    requires i <= |env|
    decreases |env| - i
  {
    if i == |env| then None
    else if env[i].baseUrl.Some? && env[i].model.Some? && env[i].key.Some? then
      Some(Chosen(i, Provider(env[i].baseUrl.value, env[i].model.value, env[i].key.value), Env, Env))
    else FirstComplete(env, i + 1)
  }

  /** The first prefix with a key whose gaps the configuration fills. */
  function FirstFilled(env: seq<Prefix>, base: Option<string>, model: Option<string>, i: nat): Option<Chosen>
    requires i <= |env|
    decreases |env| - i
  {
    if i == |env| then None
    else
      var (b, m) := (Either(env[i].baseUrl, base), Either(env[i].model, model));
      if env[i].key.Some? && b.Some? && m.Some? then
        Some(Chosen(i, Provider(b.value.0, m.value.0, env[i].key.value), b.value.1, m.value.1))
      else FirstFilled(env, base, model, i + 1)
  }

  function Either(env: Option<string>, cfg: Option<string>): Option<(string, Source)>
  {
    if env.Some? then Some((env.value, Env)) else if cfg.Some? then Some((cfg.value, Project)) else None
  }

  /** The usable triple. */
  function ResolveProvider(env: seq<Prefix>, base: Option<string>, model: Option<string>): Option<Chosen>
  {
    var complete := FirstComplete(env, 0);
    if complete.Some? then complete
    else if base.Some? || model.Some? then FirstFilled(env, base, model, 0)
    else None
  }

  predicate Complete(p: Prefix) { p.baseUrl.Some? && p.model.Some? && p.key.Some? }

  predicate Fillable(p: Prefix, base: Option<string>, model: Option<string>)
  {
    p.key.Some? && (p.baseUrl.Some? || base.Some?) && (p.model.Some? || model.Some?)
  }

  /** Values are taken from one prefix only, and a configured value only where that prefix has none. */
  predicate TakenFrom(c: Chosen, env: seq<Prefix>, base: Option<string>, model: Option<string>)
  {
    c.prefix < |env| &&
    env[c.prefix].key == Some(c.provider.key) &&
    Either(env[c.prefix].baseUrl, base) == Some((c.provider.baseUrl, c.baseFrom)) &&
    Either(env[c.prefix].model, model) == Some((c.provider.model, c.modelFrom))
  }

  /** What a prefix says about one of the provider's two keys. */
  function Of(p: Prefix, k: Key): Option<string>
    requires IsProvider(k)
  {
    if k.BaseUrl? then p.baseUrl else p.model
  }

  /** The first prefix from `i` on that sets the key. */
  function FirstSet(env: seq<Prefix>, k: Key, i: nat): (r: Option<nat>)
    requires i <= |env| && IsProvider(k)
    ensures r.Some? ==> i <= r.value < |env| && Of(env[r.value], k).Some?
    ensures r.Some? ==> forall j :: i <= j < r.value ==> Of(env[j], k).None?
    ensures r.None? ==> forall j :: i <= j < |env| ==> Of(env[j], k).None?
    decreases |env| - i
  {
    if i == |env| then None else if Of(env[i], k).Some? then Some(i) else FirstSet(env, k, i + 1)
  }

  function SetText(v: Option<Value>): Option<string>
  {
    var w := OnlySet(v);
    if w.Some? && w.value.Words? then Some(w.value.s) else None
  }

  /** One of the provider's two keys: out of the usable triple, and without one the best candidate. */
  function ProviderKey(env: seq<Prefix>, cfg: Layer, k: Key): Option<Eff>
    requires IsProvider(k)
  {
    var c := ResolveProvider(env, SetText(Lookup(cfg, BaseUrl)), SetText(Lookup(cfg, Model)));
    if c.Some? then
      var from := if k.BaseUrl? then c.value.baseFrom else c.value.modelFrom;
      Some(Eff(Words(if k.BaseUrl? then c.value.provider.baseUrl else c.value.provider.model), from,
               if from.Env? then Some(c.value.prefix) else None))
    else
      var i := FirstSet(env, k, 0);
      if i.Some? then Some(Eff(Words(Of(env[i.value], k).value), Env, i))
      else
        var v := SetText(Lookup(cfg, k));
        if v.Some? then Some(Eff(Words(v.value), Project, None)) else None
  }

  // --------------------------------------------------------------- one key at a time

  /** The keys that the environment can set. */
  predicate FromEnv(k: Key)
  {
    k.Memory? || k.SystemPrompt? || k.Trust? || k.Skill? || k.ContextWindow? || k.ReasoningEffort?
  }

  function EnvValue(env: Environment, k: Key): Option<Value>
  {
    var v := if FromEnv(k) then Lookup(env.vars, k) else None;
    if k.ContextWindow? && v == Some(Number(0)) then None else v
  }

  /** One key of `resolve_layered`. */
  function ResolveKey(flags: Layer, env: Environment, cfg: Layer, k: Key): Option<Eff>
  {
    var flag, e, c := Lookup(flags, k), EnvValue(env, k), Lookup(cfg, k);
    if IsProvider(k) then ProviderKey(Cleaned(env.prefixes), cfg, k)
    else if IsSwitch(k) then ResolveBool(flag == Some(Switch(true)), c)
    else if IsList(k) then ResolveList(flag, e, c)
    else
      match k
      case SessionsDir => ResolveOr(flag, None, OnlySet(c), Words(DEFAULT_SESSIONS_DIR))
      case VerifyTimeout => ResolveOr(flag, None, c, Number(DEFAULT_VERIFY_TIMEOUT_SECS))
      case CompactAt => ResolveOr(flag, None, c, Ratio(DEFAULT_AT))
      case Memory => Written(k, Resolve(OnlySet(flag), OnlySet(e), OnlySet(c)))
      case ReasoningEffort => Written(k, Resolve(flag, OnlySet(e), OnlySet(c)))
      case ContextWindow => Resolve(None, e, c)
      case MaxSteps => Resolve(flag, None, c)
      case MaxMinutes => Resolve(flag, None, c)
      case MaxTokens => Resolve(flag, None, c)
      case _ => Resolve(flag, OnlySet(e), OnlySet(c))
  }

  /** `mark_user_keys` on one key. */
  function MarkUser(e: Option<Eff>, k: Key, userKeys: set<Key>): Option<Eff>
  {
    if e.Some? && e.value.source == Project && k in userKeys then Some(e.value.(source := User)) else e
  }

  function Settle(flags: Layer, env: Environment, cfg: Merged, k: Key): Option<Eff>
  {
    MarkUser(ResolveKey(flags, env, cfg.values, k), k, cfg.userKeys)
  }

  // ------------------------------------------------------------ one-shot precedence

  /** Whether the command line's word for a key counts as given: switches only when on, lists only
      when not empty, the memory location only when not blank, everything else as typed. The context
      window and the provider have no flag. */
  predicate FlagCounts(k: Key, v: Value)
  {
    !k.ContextWindow? && !IsProvider(k) && (IsSwitch(k) ==> v == Switch(true)) && (IsList(k) || k.Memory? ==> IsSet(v))
  }

  function DefaultOf(k: Key): Option<Value>
  {
    if IsSwitch(k) then Some(Switch(false))
    else if k.SessionsDir? then Some(Words(DEFAULT_SESSIONS_DIR))
    else if k.VerifyTimeout? then Some(Number(DEFAULT_VERIFY_TIMEOUT_SECS))
    else if k.CompactAt? then Some(Ratio(DEFAULT_AT))
    else None
  }

  /** What the environment says about a key: its first variable that is set. */
  function EnvSays(env: Environment, k: Key): Option<Eff>
  {
    if IsProvider(k) then
      var prefixes := Cleaned(env.prefixes);
      var i := FirstSet(prefixes, k, 0);
      if i.Some? then Some(Eff(Words(Of(prefixes[i.value], k).value), Env, i)) else None
    else
      var v := OnlySet(EnvValue(env, k));
      if v.Some? then Some(Eff(v.value, Env, None)) else None
  }

  /** flag > env > project > user > default, looked up in one pass over the four layers. */
  function OneShot(flags: Layer, env: Environment, project: Layer, user: Layer, k: Key): Option<Eff>
  {
    var flag, e, p, u := Lookup(flags, k), EnvSays(env, k), Lookup(project, k), Lookup(user, k);
    if flag.Some? && FlagCounts(k, flag.value) then Some(Eff(flag.value, Flag, None))
    else if e.Some? then e
    else if p.Some? && IsSet(p.value) then Some(Eff(p.value, Project, None))
    else if u.Some? && IsSet(u.value) then Some(Eff(u.value, User, None))
    else if DefaultOf(k).Some? then Some(Eff(DefaultOf(k).value, Default, None))
    else None
  }

  predicate OfKind(v: Option<Value>, k: Key)
  {
    v.Some? ==>
      if IsSwitch(k) then v.value.Switch?
      else if IsList(k) then v.value.Items?
      else if IsNumber(k) then v.value.Number?
      else if k.CompactAt? then v.value.Ratio?
      else v.value.Words?
  }

  /** The value of a key has the key's type in every layer: only words can be blank, only lists empty. */
  predicate HasKind(env: Environment, project: Layer, user: Layer, k: Key)
  {
    OfKind(Lookup(env.vars, k), k) && OfKind(Lookup(project, k), k) && OfKind(Lookup(user, k), k)
  }

  predicate IsNumber(k: Key)
  {
    k.ContextWindow? || k.MaxSteps? || k.MaxMinutes? || k.MaxTokens? || k.VerifyTimeout?
  }

  lemma LayeredLookup(project: Layer, user: Layer, k: Key)
    ensures Lookup(Layered(project, user).values, k) == Pick(Lookup(project, k), Lookup(user, k)).0
    ensures k in Layered(project, user).userKeys <==> Pick(Lookup(project, k), Lookup(user, k)).1
  {
    hide IsSet;
  }

  lemma ListsByPrecedence(flags: Layer, env: Environment, project: Layer, user: Layer, k: Key)
    requires IsList(k)
    ensures Settle(flags, env, Layered(project, user), k) == OneShot(flags, env, project, user, k)
  {
    hide Layered, Trim, ProviderKey, Cleaned, FirstSet;
    LayeredLookup(project, user, k);
  }

  lemma SwitchesByPrecedence(flags: Layer, env: Environment, project: Layer, user: Layer, k: Key)
    requires IsSwitch(k) && HasKind(env, project, user, k)
    ensures Settle(flags, env, Layered(project, user), k) == OneShot(flags, env, project, user, k)
  {
    hide Layered, Trim, ProviderKey, Cleaned, FirstSet;
    LayeredLookup(project, user, k);
  }

  lemma NumbersByPrecedence(flags: Layer, env: Environment, project: Layer, user: Layer, k: Key)
    requires IsNumber(k) && HasKind(env, project, user, k)
    ensures Settle(flags, env, Layered(project, user), k) == Written(k, OneShot(flags, env, project, user, k))
  {
    hide Layered, Trim, Canonical, ProviderKey, Cleaned, FirstSet;
    LayeredLookup(project, user, k);
  }

  lemma RatioByPrecedence(flags: Layer, env: Environment, project: Layer, user: Layer)
    requires HasKind(env, project, user, CompactAt)
    ensures Settle(flags, env, Layered(project, user), CompactAt) ==
            Written(CompactAt, OneShot(flags, env, project, user, CompactAt))
  {
    hide Layered, Trim, Canonical, ProviderKey, Cleaned, FirstSet;
    LayeredLookup(project, user, CompactAt);
  }

  lemma WordsByPrecedence(flags: Layer, env: Environment, project: Layer, user: Layer, k: Key)
    requires !IsSwitch(k) && !IsList(k) && !IsProvider(k) && !IsNumber(k) && !k.CompactAt?
    ensures Settle(flags, env, Layered(project, user), k) == Written(k, OneShot(flags, env, project, user, k))
  {
    hide Layered, Trim, Canonical, ProviderKey, Cleaned, FirstSet;
    LayeredLookup(project, user, k);
  }

  /** A switch is on exactly when the flag is given, or else the first file that mentions it says so. */
  lemma SwitchesOnlyTurnOn(flags: Layer, env: Environment, project: Layer, user: Layer, k: Key)
    requires IsSwitch(k) && HasKind(env, project, user, k)
    ensures var e := Settle(flags, env, Layered(project, user), k);
            e.Some? && e.value.value == Switch(
              Lookup(flags, k) == Some(Switch(true)) ||
              (if k in project then project[k].on else if k in user then user[k].on else false))
  {
    hide Layered, Settle;
    SwitchesByPrecedence(flags, env, project, user, k);
  }

  lemma {:induction false} FirstCompleteIs(env: seq<Prefix>, i: nat, base: Option<string>, model: Option<string>)
    requires i <= |env|
    ensures FirstComplete(env, i).None? <==> forall j :: i <= j < |env| ==> !Complete(env[j])
    ensures var c := FirstComplete(env, i);
            c.Some? ==> i <= c.value.prefix && TakenFrom(c.value, env, base, model) && Complete(env[c.value.prefix]) &&
                        forall j :: i <= j < c.value.prefix ==> !Complete(env[j])
    decreases |env| - i
  {
    if i < |env| { FirstCompleteIs(env, i + 1, base, model); }
  }

  lemma {:induction false} FirstFilledIs(env: seq<Prefix>, i: nat, base: Option<string>, model: Option<string>)
    requires i <= |env|
    ensures FirstFilled(env, base, model, i).None? <==> forall j :: i <= j < |env| ==> !Fillable(env[j], base, model)
    ensures var c := FirstFilled(env, base, model, i);
            c.Some? ==> i <= c.value.prefix && TakenFrom(c.value, env, base, model) &&
                        Fillable(env[c.value.prefix], base, model) &&
                        forall j :: i <= j < c.value.prefix ==> !Fillable(env[j], base, model)
    decreases |env| - i
  {
    if i < |env| { FirstFilledIs(env, i + 1, base, model); }
  }

  /** A provider is found exactly when some prefix has a key and its gaps can be filled; prefixes are
      never mixed; a complete prefix wins whatever the configuration says, and otherwise the first
      fillable one does. */
  lemma ProviderIsChosen(env: seq<Prefix>, base: Option<string>, model: Option<string>)
    ensures var c := ResolveProvider(env, base, model);
            && (c.Some? <==> exists j :: 0 <= j < |env| && Fillable(env[j], base, model))
            && (c.Some? ==> TakenFrom(c.value, env, base, model))
            && ((exists j :: 0 <= j < |env| && Complete(env[j])) ==>
                  c == ResolveProvider(env, None, None) && Complete(env[c.value.prefix]) &&
                  forall j :: 0 <= j < c.value.prefix ==> !Complete(env[j]))
            && ((forall j :: 0 <= j < |env| ==> !Complete(env[j])) && c.Some? ==>
                  forall j :: 0 <= j < c.value.prefix ==> !Fillable(env[j], base, model))
  {
    FirstCompleteIs(env, 0, base, model);
    FirstFilledIs(env, 0, base, model);
  }

  /** The documentation fills "the first prefix that has an API key". The code does so exactly when that
      prefix can be filled; when it cannot, a later prefix with a key is used. */
  lemma FirstKeyedPrefix(env: seq<Prefix>, base: Option<string>, model: Option<string>, first: nat)
    requires forall j :: 0 <= j < |env| ==> !Complete(env[j])
    requires first < |env| && env[first].key.Some? && forall j :: 0 <= j < first ==> env[j].key.None?
    ensures var c := ResolveProvider(env, base, model);
            (c.Some? && c.value.prefix == first) <==> Fillable(env[first], base, model)
  {
    ProviderIsChosen(env, base, model);
    FirstFilledIs(env, 0, base, model);
  }

  lemma LaterPrefixUsed(url: string, model: string)
    ensures var env := [Prefix(None, None, Some("a")), Prefix(Some(url), None, Some("b"))];
            ResolveProvider(env, None, Some(model)) == Some(Chosen(1, Provider(url, model, "b"), Env, Project))
  {
    var env := [Prefix(None, None, Some("a")), Prefix(Some(url), None, Some("b"))];
    FirstCompleteIs(env, 0, None, Some(model));
    FirstFilledIs(env, 0, None, Some(model));
    assert Fillable(env[1], None, Some(model));
  }

  // ------------------------------------------------------- the provider over two files

  /** What the files say about a key: the project first. */
  function FilesSay(project: Layer, user: Layer, k: Key): Option<Eff>
  {
    var p, u := Lookup(project, k), Lookup(user, k);
    if p.Some? && IsSet(p.value) then Some(Eff(p.value, Project, None))
    else if u.Some? && IsSet(u.value) then Some(Eff(u.value, User, None))
    else None
  }

  /** The prefix of the usable triple over the two files. */
  function ChosenPrefix(env: Environment, project: Layer, user: Layer): Option<nat>
  {
    var c := ResolveProvider(Cleaned(env.prefixes), FileText(project, user, BaseUrl), FileText(project, user, Model));
    if c.Some? then Some(c.value.prefix) else None
  }

  function FileText(project: Layer, user: Layer, k: Key): Option<string>
  {
    var e := FilesSay(project, user, k);
    if e.Some? && e.value.value.Words? then Some(e.value.value.s) else None
  }

  /** A key of the usable triple: its own prefix, else the project file, else the user file. */
  function WithinPrefix(p: Prefix, project: Layer, user: Layer, k: Key, prefix: nat): Option<Eff>
    requires IsProvider(k)
  {
    if Of(p, k).Some? then Some(Eff(Words(Of(p, k).value), Env, Some(prefix))) else FilesSay(project, user, k)
  }

  lemma LayeredText(project: Layer, user: Layer, k: Key)
    ensures SetText(Lookup(Layered(project, user).values, k)) == FileText(project, user, k)
  {
    hide Layered, Trim;
    LayeredLookup(project, user, k);
  }

  /** The provider's two keys over the layered files, with the sources as marked: taken within the chosen
      prefix when there is a usable triple, by plain precedence when there is none. */
  lemma ProviderSettles(flags: Layer, env: Environment, project: Layer, user: Layer, k: Key)
    requires IsProvider(k) && HasKind(env, project, user, k)
    ensures ChosenPrefix(env, project, user).Some? ==> ChosenPrefix(env, project, user).value < |env.prefixes|
    ensures var chosen := ChosenPrefix(env, project, user);
            Settle(flags, env, Layered(project, user), k) ==
              if chosen.None? then OneShot(flags, env, project, user, k)
              else WithinPrefix(Cleaned(env.prefixes)[chosen.value], project, user, k, chosen.value)
  {
    hide Layered, Trim, ResolveProvider, Cleaned;
    LayeredText(project, user, BaseUrl);
    LayeredText(project, user, Model);
    LayeredLookup(project, user, k);
    ProviderIsChosen(Cleaned(env.prefixes), FileText(project, user, BaseUrl), FileText(project, user, Model));
  }

  /** The first prefix to set the key. */
  predicate FirstToSet(env: seq<Prefix>, k: Key, i: nat)
    requires IsProvider(k)
  {
    i < |env| && Of(env[i], k).Some? && forall j :: 0 <= j < i ==> Of(env[j], k).None?
  }

  /** The first prefix that is complete, if any is, else the first whose gaps the files fill. */
  predicate FirstUsable(env: seq<Prefix>, base: Option<string>, model: Option<string>, i: nat)
  {
    i < |env| &&
    if exists j :: 0 <= j < |env| && Complete(env[j]) then
      Complete(env[i]) && forall j :: 0 <= j < i ==> !Complete(env[j])
    else
      Fillable(env[i], base, model) && forall j :: 0 <= j < i ==> !Fillable(env[j], base, model)
  }

  /** Precedence is kept for a provider's key when no prefix can be filled, or when the first prefix to
      set the key, if there is one, is the first usable one. */
  ghost predicate KeepsPrecedence(env: Environment, project: Layer, user: Layer, k: Key)
  {
    IsProvider(k) ==>
      var ps, base, model := Cleaned(env.prefixes), FileText(project, user, BaseUrl), FileText(project, user, Model);
      (forall j :: 0 <= j < |ps| ==> !Fillable(ps[j], base, model)) ||
      forall i :: FirstToSet(ps, k, i) ==> FirstUsable(ps, base, model, i)
  }

  /** A provider is taken from the first usable prefix, and there is only one. */
  lemma FirstUsableIsChosen(env: seq<Prefix>, base: Option<string>, model: Option<string>, i: nat)
    ensures var c := ResolveProvider(env, base, model);
            FirstUsable(env, base, model, i) <==> c.Some? && c.value.prefix == i
  {
    hide ResolveProvider, FirstComplete, FirstFilled;
    ProviderIsChosen(env, base, model);
  }

  lemma FirstToSetIs(env: seq<Prefix>, k: Key, i: nat)
    requires IsProvider(k)
    ensures FirstToSet(env, k, i) <==> FirstSet(env, k, 0) == Some(i)
  {
    hide FirstSet;
    var first := FirstSet(env, k, 0);
    if first.Some? && FirstToSet(env, k, i) { assert i <= first.value && first.value <= i; }
  }

  lemma KeepsPrecedenceMeans(env: Environment, project: Layer, user: Layer, k: Key)
    requires IsProvider(k)
    ensures var chosen, first := ChosenPrefix(env, project, user), FirstSet(Cleaned(env.prefixes), k, 0);
            KeepsPrecedence(env, project, user, k) <==> chosen.None? || first.None? || first == chosen
  {
    hide Trim, Cleaned, ResolveProvider, Fillable, Complete, FirstUsable, FirstSet, FirstToSet, FileText;
    var ps, base, model := Cleaned(env.prefixes), FileText(project, user, BaseUrl), FileText(project, user, Model);
    ProviderIsChosen(ps, base, model);
    forall i: nat
      ensures FirstUsable(ps, base, model, i) <==> ChosenPrefix(env, project, user) == Some(i)
      ensures FirstToSet(ps, k, i) <==> FirstSet(ps, k, 0) == Some(i)
    {
      FirstUsableIsChosen(ps, base, model, i);
      FirstToSetIs(ps, k, i);
    }
  }

  lemma ProviderByPrecedence(flags: Layer, env: Environment, project: Layer, user: Layer, k: Key)
    requires IsProvider(k) && HasKind(env, project, user, k)
    ensures Settle(flags, env, Layered(project, user), k) == OneShot(flags, env, project, user, k) <==>
            KeepsPrecedence(env, project, user, k)
  {
    hide Layered, Trim, Settle, ChosenPrefix, Cleaned, KeepsPrecedence;
    ProviderSettles(flags, env, project, user, k);
    KeepsPrecedenceMeans(env, project, user, k);
  }

  /** Merging the files first and resolving afterwards gives the value and the source of the one-shot
      precedence, for every key but the provider's two, and for those exactly when no prefix can be filled
      or the first one to set the key is the first usable one. */
  lemma SettlesByPrecedence(flags: Layer, env: Environment, project: Layer, user: Layer, k: Key)
    requires HasKind(env, project, user, k)
    ensures Settle(flags, env, Layered(project, user), k) == Written(k, OneShot(flags, env, project, user, k)) <==>
            KeepsPrecedence(env, project, user, k)
  {
    hide Settle, OneShot, Layered;
    if IsProvider(k) {
      ProviderByPrecedence(flags, env, project, user, k);
    } else if IsList(k) {
      ListsByPrecedence(flags, env, project, user, k);
    } else if IsSwitch(k) {
      SwitchesByPrecedence(flags, env, project, user, k);
    } else if IsNumber(k) {
      NumbersByPrecedence(flags, env, project, user, k);
    } else if k.CompactAt? {
      RatioByPrecedence(flags, env, project, user);
    } else {
      WordsByPrecedence(flags, env, project, user, k);
    }
  }

  /** Variables without surrounding blanks are taken as they are. */
  lemma CleanedKeeps(raw: seq<Prefix>)
    requires forall p, v | p in raw && v in [p.baseUrl, p.model, p.key] && v.Some? :: v.value != "" && IsTrimmed(v.value)
    ensures Cleaned(raw) == raw
  {
    hide Trim;
    forall i | 0 <= i < |raw|
      ensures Cleaned(raw)[i] == raw[i]
    {
      assert raw[i] in raw;
      forall v | v in [raw[i].baseUrl, raw[i].model, raw[i].key]
        ensures Nonblank(v) == v
      {
        if v.Some? { TrimIsTrimmed(v.value); }
      }
      assert raw[i].baseUrl in [raw[i].baseUrl, raw[i].model, raw[i].key];
    }
  }

  /** The first prefix names a model but has no key; the second has a key and an address. The model comes
      out of the project file although the environment sets one. */
  lemma EnvironmentPassedOver(flags: Layer)
    ensures var env := Environment(map[], [Prefix(None, Some("m"), None), Prefix(Some("u"), None, Some("k"))]);
            Settle(flags, env, Layered(map[Model := Words("c")], map[]), Model) == Some(Eff(Words("c"), Project, None)) &&
            OneShot(flags, env, map[Model := Words("c")], map[], Model) == Some(Eff(Words("m"), Env, Some(0)))
  {
    hide Layered, Settle, Trim, ResolveProvider, FirstComplete, FirstFilled, Cleaned;
    var env := Environment(map[], [Prefix(None, Some("m"), None), Prefix(Some("u"), None, Some("k"))]);
    CleanedKeeps(env.prefixes);
    TrimIsTrimmed("c");
    ProviderSettles(flags, env, map[Model := Words("c")], map[], Model);
    ProviderIsChosen(env.prefixes, None, Some("c"));
    assert Fillable(env.prefixes[1], None, Some("c"));
  }

  // ----------------------------------------------------------------- what counts

  /** A text of blanks, or an empty list. */
  predicate SaysNothing(v: Value) { (v.Words? && IsBlank(v.s)) || v == Items([]) }

  lemma NothingIsUnset(v: Value)
    ensures SaysNothing(v) <==> !IsSet(v)
  {
    if v.Words? { BlankTrims(v.s); }
  }

  lemma ProjectPassesOver(flags: Layer, env: Environment, project: Layer, user: Layer, k: Key, v: Value)
    requires SaysNothing(v)
    ensures OneShot(flags, env, project[k := v], user, k) == OneShot(flags, env, project - {k}, user, k)
  {
    hide IsSet, EnvSays, DefaultOf, FlagCounts, SaysNothing;
    NothingIsUnset(v);
  }

  lemma UserPassesOver(flags: Layer, env: Environment, project: Layer, user: Layer, k: Key, v: Value)
    requires SaysNothing(v)
    ensures OneShot(flags, env, project, user[k := v], k) == OneShot(flags, env, project, user - {k}, k)
  {
    hide IsSet, EnvSays, DefaultOf, FlagCounts, SaysNothing;
    NothingIsUnset(v);
  }

  lemma EnvironmentPassesOver(flags: Layer, env: Environment, project: Layer, user: Layer, k: Key, v: Value)
    requires SaysNothing(v) && !IsProvider(k)
    ensures OneShot(flags, env.(vars := env.vars[k := v]), project, user, k) ==
            OneShot(flags, env.(vars := env.vars - {k}), project, user, k)
  {
    hide IsSet, DefaultOf, FlagCounts, SaysNothing, Cleaned;
    NothingIsUnset(v);
  }

  lemma ProviderPassesOver(env: Environment, project: Layer, user: Layer, k: Key, v: Value)
    requires SaysNothing(v)
    ensures forall q :: FilesSay(project[k := v], user, q) == FilesSay(project - {k}, user, q)
    ensures forall q :: FilesSay(project, user[k := v], q) == FilesSay(project, user - {k}, q)
  {
    hide IsSet, SaysNothing;
    NothingIsUnset(v);
  }

  /** A key settles alike over files that say the same. */
  lemma SettlesAlike(flags: Layer, env: Environment, p: Layer, u: Layer, p': Layer, u': Layer, k: Key)
    requires HasKind(env, p, u, k) && HasKind(env, p', u', k)
    requires OneShot(flags, env, p, u, k) == OneShot(flags, env, p', u', k)
    requires forall q :: FilesSay(p, u, q) == FilesSay(p', u', q)
    ensures Settle(flags, env, Layered(p, u), k) == Settle(flags, env, Layered(p', u'), k)
  {
    hide Settle, OneShot, Layered, Written, FilesSay, Cleaned, HasKind, ResolveProvider;
    if IsProvider(k) {
      ProviderSettles(flags, env, p, u, k);
      ProviderSettles(flags, env, p', u', k);
    } else {
      SettlesByPrecedence(flags, env, p, u, k);
      SettlesByPrecedence(flags, env, p', u', k);
    }
  }

  /** A file's value that says nothing counts as if the file did not mention the key. */
  lemma BlankFilesCountAsUnset(flags: Layer, env: Environment, project: Layer, user: Layer, k: Key, v: Value)
    requires SaysNothing(v) && OfKind(Some(v), k) && HasKind(env, project, user, k)
    ensures Settle(flags, env, Layered(project[k := v], user), k) == Settle(flags, env, Layered(project - {k}, user), k)
    ensures Settle(flags, env, Layered(project, user[k := v]), k) == Settle(flags, env, Layered(project, user - {k}), k)
  {
    hide Settle, OneShot, Layered, SaysNothing, FilesSay;
    ProjectPassesOver(flags, env, project, user, k, v);
    UserPassesOver(flags, env, project, user, k, v);
    ProviderPassesOver(env, project, user, k, v);
    SettlesAlike(flags, env, project[k := v], user, project - {k}, user, k);
    SettlesAlike(flags, env, project, user[k := v], project, user - {k}, k);
  }

  /** So does a variable that says nothing. */
  lemma BlankVariablesCountAsUnset(flags: Layer, env: Environment, project: Layer, user: Layer, k: Key, v: Value)
    requires SaysNothing(v) && OfKind(Some(v), k) && HasKind(env, project, user, k) && !IsProvider(k)
    ensures Settle(flags, env.(vars := env.vars[k := v]), Layered(project, user), k) ==
            Settle(flags, env.(vars := env.vars - {k}), Layered(project, user), k)
  {
    hide Settle, OneShot, Layered, SaysNothing, Written;
    EnvironmentPassesOver(flags, env, project, user, k, v);
    SettlesByPrecedence(flags, env.(vars := env.vars[k := v]), project, user, k);
    SettlesByPrecedence(flags, env.(vars := env.vars - {k}), project, user, k);
  }

  /** Without a flag, a variable that says something decides exactly the keys that have one. */
  lemma VariablesDecide(flags: Layer, env: Environment, project: Layer, user: Layer, k: Key)
    requires HasKind(env, project, user, k) && !IsProvider(k) && k !in flags
    requires k in env.vars && !SaysNothing(env.vars[k]) && env.vars[k] != Number(0)
    ensures var e := Settle(flags, env, Layered(project, user), k);
            (e.Some? && e.value.source.Env?) <==>
            k in {Memory, SystemPrompt, Trust, Skill, ContextWindow, ReasoningEffort}
  {
    hide Settle, Layered, SaysNothing, IsSet, Canonical, Trim;
    NothingIsUnset(env.vars[k]);
    SettlesByPrecedence(flags, env, project, user, k);
  }

  /** Without a flag and a variable, a project value that says something is used. */
  lemma ProjectDecides(flags: Layer, env: Environment, project: Layer, user: Layer, k: Key)
    requires HasKind(env, project, user, k) && !IsProvider(k) && k !in flags && k !in env.vars
    requires k in project && !SaysNothing(project[k])
    ensures Settle(flags, env, Layered(project, user), k) == Written(k, Some(Eff(project[k], Project, None)))
  {
    hide Settle, Layered, SaysNothing, IsSet, Written;
    NothingIsUnset(project[k]);
    SettlesByPrecedence(flags, env, project, user, k);
  }

  /** A context window of zero in the environment counts as unset. */
  lemma ZeroWindowIsUnset(flags: Layer, vars: Layer, prefixes: seq<Prefix>, project: Layer, user: Layer)
    ensures Settle(flags, Environment(vars[ContextWindow := Number(0)], prefixes), Layered(project, user), ContextWindow) ==
            Settle(flags, Environment(vars - {ContextWindow}, prefixes), Layered(project, user), ContextWindow)
  {
    hide Layered;
  }

  /** The memory location is settled without outer blanks, and a reasoning effort in any spelling of one of the
      four known ones in lower case. */
  lemma SettledSpelling(flags: Layer, env: Environment, project: Layer, user: Layer, k: Key)
    requires HasKind(env, project, user, k)
    ensures var e := Settle(flags, env, Layered(project, user), k);
            e.Some? && e.value.value.Words? ==>
              && (k.Memory? ==> IsTrimmed(e.value.value.s))
              && (k.ReasoningEffort? && Trim(e.value.value.s) != e.value.value.s ==>
                    Lower(Trim(e.value.value.s)) !in ["minimal", "low", "medium", "high"])
              && (k.ReasoningEffort? && Lower(Trim(e.value.value.s)) in ["minimal", "low", "medium", "high"] ==>
                    e.value.value.s in ["minimal", "low", "medium", "high"])
  {
    hide Settle, OneShot, Layered, Trim, Lower;
    SettlesByPrecedence(flags, env, project, user, k);
    var e := OneShot(flags, env, project, user, k);
    if e.Some? && e.value.value.Words? {
      TrimIsTrimmed(e.value.value.s);
      EffortsAreCanonical();
    }
  }

  lemma EffortsAreCanonical()
    ensures forall s | s in REASONING_EFFORTS :: Trim(s) == s && Lower(s) == s
  {
    hide Trim, Lower;
    forall s | s in REASONING_EFFORTS
      ensures Trim(s) == s && Lower(s) == s
    {
      TrimIsTrimmed(s);
      LowerKeeps(s);
    }
  }

  lemma {:induction false} LowerKeeps(s: string)
    requires forall k :: 0 <= k < |s| ==> 'a' <= s[k] <= 'z'
    ensures Lower(s) == s
  {
    if s != "" {
      LowerKeeps(s[1..]);
      assert s == [s[0]] + s[1..];
    }
  }

  /** A flag that says something decides every key that has one; a switch only when it is on. */
  lemma FlagsDecide(flags: Layer, env: Environment, project: Layer, user: Layer, k: Key)
    requires HasKind(env, project, user, k) && !IsProvider(k) && !k.ContextWindow?
    requires k in flags && !SaysNothing(flags[k]) && (IsSwitch(k) ==> flags[k] == Switch(true))
    ensures Settle(flags, env, Layered(project, user), k) == Written(k, Some(Eff(flags[k], Flag, None)))
  {
    hide Settle, Layered, SaysNothing, IsSet, Written;
    NothingIsUnset(flags[k]);
    SettlesByPrecedence(flags, env, project, user, k);
  }

  /** Without a flag, a variable and a project value, a user value that says something is used. */
  lemma UserDecides(flags: Layer, env: Environment, project: Layer, user: Layer, k: Key)
    requires HasKind(env, project, user, k) && !IsProvider(k) && k !in flags && k !in env.vars && k !in project
    requires k in user && !SaysNothing(user[k])
    ensures Settle(flags, env, Layered(project, user), k) == Written(k, Some(Eff(user[k], User, None)))
  {
    hide Settle, Layered, SaysNothing, IsSet, Written;
    NothingIsUnset(user[k]);
    SettlesByPrecedence(flags, env, project, user, k);
  }

  /** With nothing said anywhere only switches, the sessions directory, the verification time-out and the
      compaction threshold have a value. */
  lemma DefaultsDecide(flags: Layer, env: Environment, project: Layer, user: Layer, k: Key)
    requires !IsProvider(k) && k !in flags && k !in env.vars && k !in project && k !in user
    ensures var e := Settle(flags, env, Layered(project, user), k);
            && (IsSwitch(k) ==> e == Some(Eff(Switch(false), Default, None)))
            && (k.SessionsDir? ==> e == Some(Eff(Words(".tole/sessions"), Default, None)))
            && (k.VerifyTimeout? ==> e == Some(Eff(Number(300), Default, None)))
            && (k.CompactAt? ==> e == Some(Eff(Ratio(0.8), Default, None)))
            && (!IsSwitch(k) && !k.SessionsDir? && !k.VerifyTimeout? && !k.CompactAt? ==> e == None)
  {
    hide Settle, Layered;
    SettlesByPrecedence(flags, env, project, user, k);
  }
}
