/**
 * config: the whole configuration, its validation, its reload from a source,
 * and first-match routing of a request to one of its rules.
 */
module Configs {
  import opened Wrappers
  import opened Externals
  import opened Metadata
  import opened Paths
  import opened Rules

  const DefaultListenAddress: string := "0.0.0.0"
  const DefaultListenPort: int := 8000

  /** The listen address after validate: the default when unset. */
  function DefaultedAddress(a: string): (r: string)
    ensures a == "" ==> r == "0.0.0.0"
    ensures a != "" ==> r == a
  {
    if a == "" then DefaultListenAddress else a
  }

  /** The listen port after validate: the default when zero. */
  function DefaultedPort(p: int): (r: int)
    ensures p == 0 ==> r == 8000
    ensures p != 0 ==> r == p
  {
    if p == 0 then DefaultListenPort else p
  }

  /** The public fields of a config as the configuration document declares them. */
  datatype ConfigDecl = ConfigDecl(
    listenPort: int,
    listenAddress: string,
    serverConfigs: seq<RuleDecl>,
    userDataTemplates: map<string, Document>)

  /** os.ReadFile followed by yaml.Unmarshal. */
  datatype Source = Unreadable | Malformed | Parsed(decl: ConfigDecl)

  datatype ReloadError = ReadConfig | ParseConfig | ValidateConfig(cause: ConfigError)

  /** The index of the first rule that fails its checks, if any. */
  function FailingRule(env: Env, templates: map<string, Document>, rules: seq<RuleDecl>): (r: Option<nat>)
    ensures r.Some? ==> r.value < |rules| && RuleError(env, templates, rules[r.value]).Some?
    ensures r.Some? ==> forall j :: 0 <= j < r.value ==> RuleError(env, templates, rules[j]) == None
    ensures r.None? ==> forall j :: 0 <= j < |rules| ==> RuleError(env, templates, rules[j]) == None
  {
    if rules == [] then None
    else if RuleError(env, templates, rules[0]).Some? then Some(0)
    else match FailingRule(env, templates, rules[1..])
      case None => None
      case Some(k) => Some(k + 1)
  }

  /** The error of the first rule that fails its checks, if any. */
  function FirstRuleError(env: Env, templates: map<string, Document>, rules: seq<RuleDecl>): Option<ConfigError> {
    match FailingRule(env, templates, rules)
    case None => None
    case Some(k) => RuleError(env, templates, rules[k])
  }

  /** The error config.validate returns for these rules, if any. */
  function ValidationResult(env: Env, configPath: string, templates: map<string, Document>, rules: seq<RuleDecl>): (r: Option<ConfigError>)
    ensures rules == [] ==> r == Some(NoServingConfigurations(configPath))
    ensures r == None <==> rules != [] && forall j :: 0 <= j < |rules| ==> RuleError(env, templates, rules[j]) == None
  {
    if rules == [] then Some(NoServingConfigurations(configPath))
    else FirstRuleError(env, templates, rules)
  }

  /** How many rules validate's loop works on: up to and including the one that fails. */
  function Reached(env: Env, templates: map<string, Document>, rules: seq<RuleDecl>): (n: nat)
    ensures n <= |rules|
  {
    match FailingRule(env, templates, rules)
    case None => |rules|
    case Some(k) => k + 1
  }

  /** Rule k fails a check and every rule before it passes. */
  predicate FirstFailingAt(env: Env, templates: map<string, Document>, rules: seq<RuleDecl>, k: int) {
    && 0 <= k < |rules| && RuleError(env, templates, rules[k]).Some?
    && forall j :: 0 <= j < k ==> RuleError(env, templates, rules[j]) == None
  }

  /** A failing rule preceded only by passing ones is the one FailingRule finds. */
  lemma {:induction false} FirstFailure(env: Env, templates: map<string, Document>, rules: seq<RuleDecl>, k: nat)
    requires FirstFailingAt(env, templates, rules, k)
    ensures FailingRule(env, templates, rules) == Some(k)
  {
    if k > 0 {
      assert forall j :: 0 <= j < k - 1 ==> rules[1..][j] == rules[j + 1];
      FirstFailure(env, templates, rules[1..], k - 1);
    }
  }

  /** When every rule passes, FailingRule finds none. */
  lemma NoFailure(env: Env, templates: map<string, Document>, rules: seq<RuleDecl>)
    requires forall j :: 0 <= j < |rules| ==> RuleError(env, templates, rules[j]) == None
    ensures FailingRule(env, templates, rules) == None
  {
  }

  /**
   * Validation fails exactly when there are no rules or some rule fails a
   * check, and then with the first failing check of the first failing rule.
   */
  lemma ValidationFailsIff(env: Env, path: string, templates: map<string, Document>, rules: seq<RuleDecl>)
    ensures ValidationResult(env, path, templates, rules) == None <==>
      rules != [] && forall j :: 0 <= j < |rules| ==> RuleError(env, templates, rules[j]) == None
    ensures rules == [] ==> ValidationResult(env, path, templates, rules) == Some(NoServingConfigurations(path))
    ensures forall k :: FirstFailingAt(env, templates, rules, k) ==>
      ValidationResult(env, path, templates, rules) == RuleError(env, templates, rules[k])
  {
    forall k | FirstFailingAt(env, templates, rules, k)
      ensures FailingRule(env, templates, rules) == Some(k)
    {
      FirstFailure(env, templates, rules, k);
    }
  }

  /** The outcome of config.reload on a source, where validation runs on a
      fresh config value whose configPath is empty. */
  function ReloadOutcome(env: Env, source: Source): (r: Option<ReloadError>)
    ensures source.Unreadable? ==> r == Some(ReadConfig)
    ensures source.Malformed? ==> r == Some(ParseConfig)
    ensures source.Parsed? && source.decl.serverConfigs == [] ==> r == Some(ValidateConfig(NoServingConfigurations("")))
    ensures r == None <==>
      && source.Parsed?
      && source.decl.serverConfigs != []
      && forall j :: 0 <= j < |source.decl.serverConfigs| ==>
           RuleError(env, source.decl.userDataTemplates, source.decl.serverConfigs[j]) == None
  {
    match source
    case Unreadable => Some(ReadConfig)
    case Malformed => Some(ParseConfig)
    case Parsed(d) =>
      match ValidationResult(env, "", d.userDataTemplates, d.serverConfigs)
      case Some(e) => Some(ValidateConfig(e))
      case None => None
  }

  /** The declared part of each rule object. */
  function Decls(rules: seq<ServerConfig>): (ds: seq<RuleDecl>)
    ensures |ds| == |rules|
    ensures forall i :: 0 <= i < |rules| ==> ds[i] == rules[i].Decl()
  {
    seq(|rules|, i requires 0 <= i < |rules| => rules[i].Decl())
  }

  /** The compiled matchers of each rule object. */
  function MatcherLists(rules: seq<ServerConfig>): (ms: seq<seq<Regexp>>)
    reads rules
    ensures |ms| == |rules|
    ensures forall i :: 0 <= i < |rules| ==> ms[i] == rules[i].compiledMatchers
  {
    seq(|rules|, i requires 0 <= i < |rules| reads rules => rules[i].compiledMatchers)
  }

  /** The derived state of each rule object. */
  function States(rules: seq<ServerConfig>): (ds: seq<Derived>)
    reads rules
    ensures |ds| == |rules|
    ensures forall i :: 0 <= i < |rules| ==> ds[i] == rules[i].State()
  {
    seq(|rules|, i requires 0 <= i < |rules| reads rules => rules[i].State())
  }

  /** No rule object occurs twice. */
  predicate Distinct(rules: seq<ServerConfig>) {
    forall i, j :: 0 <= i < j < |rules| ==> rules[i] != rules[j]
  }

  /** The index of the first rule, in declared order, one of whose matchers matches path. */
  function FirstMatch(env: Env, matchers: seq<seq<Regexp>>, path: string): (r: Option<nat>)
    ensures r.Some? ==> r.value < |matchers| && AnyMatch(env, matchers[r.value], path)
    ensures r.Some? ==> forall j :: 0 <= j < r.value ==> !AnyMatch(env, matchers[j], path)
    ensures r.None? <==> forall j :: 0 <= j < |matchers| ==> !AnyMatch(env, matchers[j], path)
  {
    if matchers == [] then None
    else if AnyMatch(env, matchers[0], path) then Some(0)
    else match FirstMatch(env, matchers[1..], path)
      case None => None
      case Some(k) => Some(k + 1)
  }

  /** Declaration order decides: a rule that matches is never passed over for a later one. */
  lemma EarlierRuleWins(env: Env, matchers: seq<seq<Regexp>>, path: string, j: nat)
    requires j < |matchers| && AnyMatch(env, matchers[j], path)
    ensures FirstMatch(env, matchers, path).Some? && FirstMatch(env, matchers, path).value <= j
  {
  }

  /** The body of config.validate's loop, run on one rule. */
  method ValidateRule(env: Env, templates: map<string, Document>, sc: ServerConfig) returns (err: Option<ConfigError>)
    modifies sc
    ensures err == RuleError(env, templates, sc.Decl())
    ensures sc.State() == StepRule(env, templates, sc.Decl(), old(sc.State()))
  {
    var e := sc.LoadMatchers(env);
    if e.Some? {
      return Some(InvalidMatchers(sc.name, e.value));
    }
    if sc.instanceConfig.None? {
      return Some(MissingInstanceConfig(sc.name));
    }
    var ie := ValidateInstanceConfig(sc.instanceConfig.value);
    if ie.Some? {
      return Some(InvalidInstanceConfig(ie.value));
    }
    if sc.userDataTemplate == "" && |sc.replacements| > 0 {
      return Some(ReplacementsWithoutTemplate);
    }
    if sc.userDataTemplate in templates {
      var clone := templates[sc.userDataTemplate];
      if |sc.replacements| > 0 {
        clone := env.mergeOverlay(clone, sc.replacements);
      }
      var rendered := env.marshal(clone);
      if rendered.None? {
        return Some(RenderUserDataFailed);
      }
      sc.renderedUserData := rendered.value;
    }
    return None;
  }

  /**
   * config.validate's loop: the checks run on each rule in order and stop at
   * the first that fails. Every rule reached has its matchers compiled and
   * its user data rendered; the rules after a failing one are left alone.
   */
  method ValidateRules(env: Env, templates: map<string, Document>, rules: seq<ServerConfig>) returns (err: Option<ConfigError>)
    requires Distinct(rules)
    modifies rules
    ensures err == FirstRuleError(env, templates, Decls(rules))
    ensures forall j :: 0 <= j < |rules| ==>
      rules[j].State() ==
        if j < Reached(env, templates, Decls(rules))
        then StepRule(env, templates, rules[j].Decl(), old(rules[j].State()))
        else old(rules[j].State())
  {
    ghost var decls := Decls(rules);
    ghost var before := States(rules);
    var i := 0;
    while i < |rules|
      invariant 0 <= i <= |rules|
      invariant forall j :: 0 <= j < i ==> RuleError(env, templates, decls[j]) == None
      invariant forall j :: 0 <= j < i ==> rules[j].State() == StepRule(env, templates, decls[j], before[j])
      invariant forall j :: i <= j < |rules| ==> rules[j].State() == before[j]
    {
      var sc := rules[i];
      err := ValidateRule(env, templates, sc);
      assert forall j :: 0 <= j < |rules| && j != i ==> rules[j] != sc;
      if err.Some? {
        FirstFailure(env, templates, decls, i);
        assert Reached(env, templates, decls) == i + 1;
        return;
      }
      i := i + 1;
    }
    NoFailure(env, templates, decls);
    return None;
  }

  /**
   * Distinct rule objects declared as decls, each validated once from an
   * empty derived state: matchers compiled and user data rendered.
   */
  ghost predicate RulesInstalled(env: Env, templates: map<string, Document>, rules: seq<ServerConfig>, decls: seq<RuleDecl>)
    reads rules
  {
    && Decls(rules) == decls
    && Distinct(rules)
    && forall i :: 0 <= i < |rules| ==> rules[i].State() == StepRule(env, templates, rules[i].Decl(), Derived([], []))
  }

  class Config {
    var listenPort: int
    var listenAddress: string
    var serverConfigs: seq<ServerConfig>
    var userDataTemplates: map<string, Document>
    const configPath: string

    /** A config with only its path set, as loadConfig allocates it. */
    constructor Empty(path: string)
      ensures configPath == path
      ensures listenPort == 0 && listenAddress == "" && serverConfigs == [] && userDataTemplates == map[]
    {
      configPath := path;
      listenPort := 0;
      listenAddress := "";
      serverConfigs := [];
      userDataTemplates := map[];
    }

    /** The config yaml.Unmarshal builds from a declaration: fresh rule objects with empty derived state. */
    constructor FromDecl(path: string, decl: ConfigDecl)
      ensures configPath == path
      ensures listenPort == decl.listenPort && listenAddress == decl.listenAddress
      ensures userDataTemplates == decl.userDataTemplates
      ensures Decls(serverConfigs) == decl.serverConfigs
      ensures Distinct(serverConfigs)
      ensures forall i :: 0 <= i < |serverConfigs| ==> fresh(serverConfigs[i]) && serverConfigs[i].State() == Derived([], [])
    {
      var rules: seq<ServerConfig> := [];
      for i := 0 to |decl.serverConfigs|
        invariant |rules| == i
        invariant Distinct(rules)
        invariant forall j :: 0 <= j < i ==> fresh(rules[j]) && rules[j].Decl() == decl.serverConfigs[j] && rules[j].State() == Derived([], [])
      {
        var sc := new ServerConfig(decl.serverConfigs[i]);
        rules := rules + [sc];
      }
      configPath := path;
      listenPort := decl.listenPort;
      listenAddress := decl.listenAddress;
      serverConfigs := rules;
      userDataTemplates := decl.userDataTemplates;
    }

    /** The state of a config after a successful reload of decl. */
    ghost predicate Installed(env: Env, decl: ConfigDecl)
      reads this, serverConfigs
    {
      && userDataTemplates == decl.userDataTemplates
      && listenAddress == DefaultedAddress(decl.listenAddress)
      && listenPort == DefaultedPort(decl.listenPort)
      && RulesInstalled(env, decl.userDataTemplates, serverConfigs, decl.serverConfigs)
    }

    /** config.validate */
    method Validate(env: Env) returns (err: Option<ConfigError>)
      requires Distinct(serverConfigs)
      modifies this`listenAddress, this`listenPort, serverConfigs
      ensures err == ValidationResult(env, configPath, userDataTemplates, Decls(serverConfigs))
      ensures forall j :: 0 <= j < |serverConfigs| ==>
        serverConfigs[j].State() ==
          if j < Reached(env, userDataTemplates, Decls(serverConfigs))
          then StepRule(env, userDataTemplates, serverConfigs[j].Decl(), old(serverConfigs[j].State()))
          else old(serverConfigs[j].State())
      ensures listenAddress == if err == None then DefaultedAddress(old(listenAddress)) else old(listenAddress)
      ensures listenPort == if err == None then DefaultedPort(old(listenPort)) else old(listenPort)
    {
      if |serverConfigs| == 0 {
        return Some(NoServingConfigurations(configPath));
      }
      err := ValidateRules(env, userDataTemplates, serverConfigs);
      if err == None {
        if listenAddress == "" {
          listenAddress := DefaultListenAddress;
        }
        if listenPort == 0 {
          listenPort := DefaultListenPort;
        }
      }
    }

    /**
     * config.reload: read, parse and validate a fresh config; only when all
     * three succeed are its four public fields copied into this one.
     */
    method Reload(env: Env, source: Source) returns (err: Option<ReloadError>)
      modifies this
      ensures err == ReloadOutcome(env, source)
      ensures err != None ==>
        && userDataTemplates == old(userDataTemplates) && serverConfigs == old(serverConfigs)
        && listenAddress == old(listenAddress) && listenPort == old(listenPort)
      ensures err == None ==> source.Parsed? && Installed(env, source.decl)
      ensures err == None ==> forall i :: 0 <= i < |serverConfigs| ==> fresh(serverConfigs[i])
    {
      if source.Unreadable? {
        return Some(ReadConfig);
      }
      if source.Malformed? {
        return Some(ParseConfig);
      }
      var decl := source.decl;
      var cfg, e := Prepare(env, decl);
      if e.Some? {
        return Some(ValidateConfig(e.value));
      }
      ghost var rules := cfg.serverConfigs;
      userDataTemplates := cfg.userDataTemplates;
      serverConfigs := cfg.serverConfigs;
      listenAddress := cfg.listenAddress;
      listenPort := cfg.listenPort;
      assert RulesInstalled(env, decl.userDataTemplates, rules, decl.serverConfigs);
      return None;
    }

    /**
     * config.ServeHTTP: the first rule in declared order that matches the
     * path answers the request; when none matches, the answer is NotFound.
     */
    method ServeHTTP(env: Env, path: string, e: Entropy) returns (resp: Response)
      requires var k := FirstMatch(env, MatcherLists(serverConfigs), path);
        LastSegment(path) == "meta-data" && k.Some? ==> '/' in path && serverConfigs[k.value].instanceConfig.Some?
      ensures var k := FirstMatch(env, MatcherLists(serverConfigs), path);
        resp == if k.None? then NotFound else serverConfigs[k.value].ServeHTTP(env, path, e)
    {
      ghost var ms := MatcherLists(serverConfigs);
      var i := 0;
      while i < |serverConfigs|
        invariant 0 <= i <= |serverConfigs|
        invariant forall j :: 0 <= j < i ==> !AnyMatch(env, ms[j], path)
      {
        var m := serverConfigs[i].Match(env, path);
        if m {
          assert FirstMatch(env, ms, path) == Some(i) by {
            EarlierRuleWins(env, ms, path, i);
          }
          return serverConfigs[i].ServeHTTP(env, path, e);
        }
        i := i + 1;
      }
      return NotFound;
    }
  }

  /**
   * The part of config.reload after parsing: a fresh config built from decl
   * and validated, with configPath left empty as in the source.
   */
  method Prepare(env: Env, decl: ConfigDecl) returns (cfg: Config, err: Option<ConfigError>)
    ensures fresh(cfg) && cfg.configPath == ""
    ensures err == ValidationResult(env, "", decl.userDataTemplates, decl.serverConfigs)
    ensures err == None ==> cfg.Installed(env, decl) && forall i :: 0 <= i < |cfg.serverConfigs| ==> fresh(cfg.serverConfigs[i])
  {
    cfg := new Config.FromDecl("", decl);
    err := cfg.Validate(env);
    if err == None {
      ValidationFailsIff(env, "", decl.userDataTemplates, decl.serverConfigs);
    }
  }

  /** loadConfig: a config for path, populated by one reload, or nothing. */
  method LoadConfig(env: Env, path: string, source: Source) returns (cfg: Config?, err: Option<ReloadError>)
    ensures err == ReloadOutcome(env, source)
    ensures cfg == null <==> err != None
    ensures cfg != null ==> fresh(cfg) && cfg.configPath == path && source.Parsed? && cfg.Installed(env, source.decl)
  {
    var c := new Config.Empty(path);
    err := c.Reload(env, source);
    if err != None {
      return null, err;
    }
    return c, None;
  }

  /** After a successful validation every rule carries an instanceConfig, as
      the meta-data handler needs. */
  lemma ValidatedRulesHaveInstanceConfig(env: Env, path: string, templates: map<string, Document>, rules: seq<RuleDecl>)
    requires ValidationResult(env, path, templates, rules) == None
    ensures forall i :: 0 <= i < |rules| ==> rules[i].instanceConfig.Some? && rules[i].matchPatterns != []
  {
    ValidationFailsIff(env, path, templates, rules);
  }
}
