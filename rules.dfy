/**
 * serverConfig: one routing rule, the checks validate runs on it, the derived
 * state it computes (compiled matchers, rendered user data), and the handler
 * that answers a request routed to it.
 */
module Rules {
  import opened Wrappers
  import opened Hex
  import opened Externals
  import opened Metadata
  import opened Paths

  /** The fields of a serverConfig as the configuration document declares them. */
  datatype RuleDecl = RuleDecl(
    name: string,
    matchPatterns: seq<string>,
    instanceConfig: Option<InstanceConfig>,
    userDataTemplate: string,
    replacements: Document)

  /** The state validate derives for a rule. */
  datatype Derived = Derived(compiledMatchers: seq<Regexp>, renderedUserData: seq<byte>)

  datatype MatcherError = NoMatchers | CompilePattern(pattern: string)

  /** The errors config.validate returns, in the order it checks for them. */
  datatype ConfigError =
    | NoServingConfigurations(configPath: string)
    | InvalidMatchers(rule: string, cause: MatcherError)
    | MissingInstanceConfig(rule: string)
    | InvalidInstanceConfig(reason: InstanceConfigError)
    | ReplacementsWithoutTemplate
    | RenderUserDataFailed

  /** What a request handler writes back. */
  datatype Response = Ok(body: seq<byte>) | NotFound | InternalError(cause: RenderError)

  /**
   * The matchers loadMatchers appends before it stops: the patterns in order,
   * up to but excluding the first one that does not compile.
   */
  function CompilePrefix(env: Env, ps: seq<string>): (r: seq<Regexp>)
    ensures |r| <= |ps|
    ensures forall i :: 0 <= i < |r| ==> r[i] == Regexp(ps[i]) && env.compiles(ps[i])
    ensures |r| < |ps| ==> !env.compiles(ps[|r|])
  {
    if ps == [] || !env.compiles(ps[0]) then []
    else
      var rest := CompilePrefix(env, ps[1..]);
      assert forall i :: 1 <= i < |ps| ==> ps[i] == ps[1..][i - 1];
      [Regexp(ps[0])] + rest
  }

  /** The error serverConfig.loadMatchers returns, if any. */
  function MatchersError(env: Env, ps: seq<string>): (r: Option<MatcherError>)
    ensures r == Some(NoMatchers) <==> ps == []
    ensures r == None <==> ps != [] && forall i :: 0 <= i < |ps| ==> env.compiles(ps[i])
    ensures r.Some? && r.value.CompilePattern? ==>
      && |CompilePrefix(env, ps)| < |ps|
      && r.value.pattern == ps[|CompilePrefix(env, ps)|]
  {
    if ps == [] then Some(NoMatchers)
    else
      var k := |CompilePrefix(env, ps)|;
      if k == |ps| then None else Some(CompilePattern(ps[k]))
  }

  /** Compiling every pattern of a good pattern list gives one matcher per
      pattern, in pattern order. */
  lemma CompileAll(env: Env, ps: seq<string>)
    requires MatchersError(env, ps) == None
    ensures CompilePrefix(env, ps) == seq(|ps|, i requires 0 <= i < |ps| => Regexp(ps[i]))
  {
  }

  /** The outcome of lines 86-97 for a rule. */
  datatype Rendering = NoTemplate | Rendered(bytes: seq<byte>) | MarshalFailed

  /**
   * The user data validate renders for a rule: nothing when the template name
   * is not a key of the templates (not an error); otherwise the template, with
   * the replacements merged in only when there are some, serialised.
   */
  function RenderUserData(env: Env, templates: map<string, Document>, r: RuleDecl): (out: Rendering)
    ensures out == NoTemplate <==> r.userDataTemplate !in templates
    ensures r.userDataTemplate in templates ==>
      (out == MarshalFailed <==> env.marshal(
         if |r.replacements| > 0 then env.mergeOverlay(templates[r.userDataTemplate], r.replacements)
         else templates[r.userDataTemplate]).None?)
    ensures out.Rendered? ==>
      && r.userDataTemplate in templates
      && Some(out.bytes) == env.marshal(
           if |r.replacements| > 0 then env.mergeOverlay(templates[r.userDataTemplate], r.replacements)
           else templates[r.userDataTemplate])
  {
    if r.userDataTemplate !in templates then NoTemplate
    else
      var clone := templates[r.userDataTemplate];
      var merged := if |r.replacements| > 0 then env.mergeOverlay(clone, r.replacements) else clone;
      match env.marshal(merged)
      case None => MarshalFailed
      case Some(bytes) => Rendered(bytes)
  }

  /** The first check of the loop body of config.validate that a rule fails. */
  function RuleError(env: Env, templates: map<string, Document>, r: RuleDecl): (out: Option<ConfigError>)
    ensures out == None <==>
      && MatchersError(env, r.matchPatterns) == None
      && r.instanceConfig.Some? && r.instanceConfig.value.hostname != ""
      && !(r.userDataTemplate == "" && |r.replacements| > 0)
      && RenderUserData(env, templates, r) != MarshalFailed
    ensures MatchersError(env, r.matchPatterns).Some? ==>
      out == Some(InvalidMatchers(r.name, MatchersError(env, r.matchPatterns).value))
    ensures MatchersError(env, r.matchPatterns) == None && r.instanceConfig.None? ==>
      out == Some(MissingInstanceConfig(r.name))
    ensures MatchersError(env, r.matchPatterns) == None && r.instanceConfig.Some? && r.instanceConfig.value.hostname == "" ==>
      out == Some(InvalidInstanceConfig(HostnameNotSet))
    ensures (&& MatchersError(env, r.matchPatterns) == None
             && r.instanceConfig.Some? && r.instanceConfig.value.hostname != ""
             && r.userDataTemplate == "" && |r.replacements| > 0) ==>
      out == Some(ReplacementsWithoutTemplate)
    ensures (&& MatchersError(env, r.matchPatterns) == None
             && r.instanceConfig.Some? && r.instanceConfig.value.hostname != ""
             && !(r.userDataTemplate == "" && |r.replacements| > 0)
             && RenderUserData(env, templates, r) == MarshalFailed) ==>
      out == Some(RenderUserDataFailed)
  {
    match MatchersError(env, r.matchPatterns)
    case Some(e) => Some(InvalidMatchers(r.name, e))
    case None =>
      if r.instanceConfig.None? then Some(MissingInstanceConfig(r.name))
      else match ValidateInstanceConfig(r.instanceConfig.value)
        case Some(e) => Some(InvalidInstanceConfig(e))
        case None =>
          if r.userDataTemplate == "" && |r.replacements| > 0 then Some(ReplacementsWithoutTemplate)
          else if RenderUserData(env, templates, r) == MarshalFailed then Some(RenderUserDataFailed)
          else None
  }

  /**
   * The derived state of a rule after validate has run its loop body on it,
   * completely or up to the check that failed: the compiled prefix is
   * appended, and the rendered user data is set only when every check passed
   * and the template resolved.
   */
  function StepRule(env: Env, templates: map<string, Document>, r: RuleDecl, d: Derived): Derived
  {
    var rendering := RenderUserData(env, templates, r);
    Derived(
      d.compiledMatchers + CompilePrefix(env, r.matchPatterns),
      if RuleError(env, templates, r) == None && rendering.Rendered? then rendering.bytes
      else d.renderedUserData)
  }

  /**
   * On any rule, StepRule keeps the matchers there were and appends matchers
   * for a prefix of the patterns, in order; it leaves the user data alone when
   * a check fails or the template name is not a key of the templates.
   */
  lemma StepRuleAppends(env: Env, templates: map<string, Document>, r: RuleDecl, d: Derived)
    ensures var d' := StepRule(env, templates, r, d);
      && |d.compiledMatchers| <= |d'.compiledMatchers| <= |d.compiledMatchers| + |r.matchPatterns|
      && d'.compiledMatchers[..|d.compiledMatchers|] == d.compiledMatchers
      && (forall i :: |d.compiledMatchers| <= i < |d'.compiledMatchers| ==>
            d'.compiledMatchers[i] == Regexp(r.matchPatterns[i - |d.compiledMatchers|]))
      && (RuleError(env, templates, r) != None || r.userDataTemplate !in templates ==>
            d'.renderedUserData == d.renderedUserData)
  {
  }

  /** On a rule that passes its checks, StepRule appends one matcher per
      pattern and sets the user data exactly when the template resolves. */
  lemma StepGoodRule(env: Env, templates: map<string, Document>, r: RuleDecl, d: Derived)
    requires RuleError(env, templates, r) == None
    ensures var d' := StepRule(env, templates, r, d);
      && |d'.compiledMatchers| == |d.compiledMatchers| + |r.matchPatterns|
      && d'.compiledMatchers[..|d.compiledMatchers|] == d.compiledMatchers
      && (forall i :: 0 <= i < |r.matchPatterns| ==>
            d'.compiledMatchers[|d.compiledMatchers| + i] == Regexp(r.matchPatterns[i]))
      && (r.userDataTemplate !in templates ==> d'.renderedUserData == d.renderedUserData)
      && (r.userDataTemplate in templates && r.replacements == map[] ==>
            Some(d'.renderedUserData) == env.marshal(templates[r.userDataTemplate]))
      && (r.userDataTemplate in templates && r.replacements != map[] ==>
            Some(d'.renderedUserData) == env.marshal(env.mergeOverlay(templates[r.userDataTemplate], r.replacements)))
  {
    CompileAll(env, r.matchPatterns);
  }

  /** Some compiled matcher matches s. */
  predicate AnyMatch(env: Env, ms: seq<Regexp>, s: string) {
    exists i :: 0 <= i < |ms| && env.matches(ms[i].expr, s)
  }

  class ServerConfig {
    const name: string
    const matchPatterns: seq<string>
    const instanceConfig: Option<InstanceConfig>
    const userDataTemplate: string
    const replacements: Document

    var compiledMatchers: seq<Regexp>
    var renderedUserData: seq<byte>

    /** The rule as yaml.Unmarshal builds it: declared fields set, derived state empty. */
    constructor (decl: RuleDecl)
      ensures Decl() == decl
      ensures State() == Derived([], [])
    {
      name := decl.name;
      matchPatterns := decl.matchPatterns;
      instanceConfig := decl.instanceConfig;
      userDataTemplate := decl.userDataTemplate;
      replacements := decl.replacements;
      compiledMatchers := [];
      renderedUserData := [];
    }

    function Decl(): RuleDecl {
      RuleDecl(name, matchPatterns, instanceConfig, userDataTemplate, replacements)
    }

    /** The derived state as a value. */
    function State(): Derived
      reads this
    {
      Derived(compiledMatchers, renderedUserData)
    }

    /** serverConfig.loadMatchers */
    method LoadMatchers(env: Env) returns (err: Option<MatcherError>)
      modifies this`compiledMatchers
      ensures err == MatchersError(env, matchPatterns)
      ensures compiledMatchers == old(compiledMatchers) + CompilePrefix(env, matchPatterns)
    {
      if |matchPatterns| == 0 {
        return Some(NoMatchers);
      }
      ghost var before := compiledMatchers;
      ghost var compiled := CompilePrefix(env, matchPatterns);
      var i := 0;
      while i < |matchPatterns|
        invariant 0 <= i <= |matchPatterns|
        invariant forall j :: 0 <= j < i ==> env.compiles(matchPatterns[j])
        invariant i <= |compiled| && compiledMatchers == before + compiled[..i]
      {
        var m := matchPatterns[i];
        if !env.compiles(m) {
          return Some(CompilePattern(m));
        }
        assert i < |compiled|;
        compiledMatchers := compiledMatchers + [Regexp(m)];
        assert compiled[..i + 1] == compiled[..i] + [compiled[i]];
        i := i + 1;
      }
      assert compiled[..i] == compiled;
      err := None;
    }

    /** serverConfig.Match */
    method Match(env: Env, s: string) returns (b: bool)
      ensures b <==> AnyMatch(env, compiledMatchers, s)
    {
      for i := 0 to |compiledMatchers|
        invariant forall j :: 0 <= j < i ==> !env.matches(compiledMatchers[j].expr, s)
      {
        if env.matches(compiledMatchers[i].expr, s) {
          return true;
        }
      }
      return false;
    }

    /**
     * serverConfig.ServeHTTP: dispatch on the last slash-separated segment.
     * The meta-data branch reads the segment before it, which needs a slash
     * in the path, and dereferences the instanceConfig.
     */
    function ServeHTTP(env: Env, path: string, e: Entropy): (r: Response)
      reads this
      requires LastSegment(path) == "meta-data" ==> '/' in path && instanceConfig.Some?
      ensures LastSegment(path) !in {"meta-data", "user-data", "vendor-data"} <==> r == NotFound
      ensures LastSegment(path) == "user-data" ==> r == Ok(renderedUserData)
      ensures LastSegment(path) == "vendor-data" ==> r == Ok([])
      ensures LastSegment(path) == "meta-data" ==>
        r == match RenderMetaData(env, instanceConfig.value, SerialSegment(path), e)
             case Failure(err) => InternalError(err)
             case Success(bytes) => Ok(bytes)
    {
      match LastSegment(path)
      case "meta-data" =>
        (match RenderMetaData(env, instanceConfig.value, SerialSegment(path), e)
         case Failure(err) => InternalError(err)
         case Success(bytes) => Ok(bytes))
      case "user-data" => Ok(renderedUserData)
      case "vendor-data" => Ok([])
      case _ => NotFound
    }
  }

  /** A request for <prefix>/<serial>/meta-data renders metadata for that serial. */
  lemma MetaDataUsesSerial(env: Env, sc: ServerConfig, prefix: string, serial: string, e: Entropy)
    requires '/' !in serial && sc.instanceConfig.Some?
    ensures var path := prefix + "/" + serial + "/" + "meta-data";
      && LastSegment(path) == "meta-data" && '/' in path
      && sc.ServeHTTP(env, path, e) ==
           match RenderMetaData(env, sc.instanceConfig.value, serial, e)
           case Failure(err) => InternalError(err)
           case Success(bytes) => Ok(bytes)
  {
    SegmentsOf(prefix, serial, "meta-data");
  }

  /** A request for <serial>/meta-data, such as "/meta-data" with the empty
      serial, renders metadata for that serial. */
  lemma ShortMetaData(env: Env, sc: ServerConfig, serial: string, e: Entropy)
    requires '/' !in serial && sc.instanceConfig.Some?
    ensures var path := serial + "/" + "meta-data";
      && LastSegment(path) == "meta-data" && '/' in path
      && sc.ServeHTTP(env, path, e) ==
           match RenderMetaData(env, sc.instanceConfig.value, serial, e)
           case Failure(err) => InternalError(err)
           case Success(bytes) => Ok(bytes)
  {
    SegmentsOfShort(serial, "meta-data");
  }

  /** A request for <prefix>/<serial>/user-data returns the rendered user data. */
  lemma UserDataVerbatim(env: Env, sc: ServerConfig, prefix: string, serial: string, e: Entropy)
    requires '/' !in serial
    ensures var path := prefix + "/" + serial + "/" + "user-data";
      LastSegment(path) == "user-data" && sc.ServeHTTP(env, path, e) == Ok(sc.renderedUserData)
  {
    SegmentsOf(prefix, serial, "user-data");
  }
}
