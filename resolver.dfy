/**
 * The client's option resolver: one `options` mapping, created from the
 * command line and then changed step by step (configuration file, public
 * server pair, explicit flags, interactive prompts, interpreter arguments,
 * completeness flag, coercion) before it is handed to the client session.
 */
module Resolver {
  import opened Values
  import opened Text
  import opened Stages
  import opened Coercion

  /** The mapping handed to the client session, or the conversion failure that stops the client. */
  function Resolution(flags: Flags, env: Environment): Result<Options>
  {
    Coerce(Completed(Collected(flags, env)))
  }

  /**
   * Sets `get_info` to false, then goes through the presence test of each
   * required option in order and sets it to true at the first that fails.
   */
  method FlagCompleteness(options: Options) returns (result: Options)
    ensures result.Keys == options.Keys + {"get_info"}
    ensures result["get_info"] == VBool(Missing(options))
    ensures forall k :: k in options && k != "get_info" ==> result[k] == options[k]
    ensures result == Completed(options)
  {
    var present := seq(|RequiredOptions|, i requires 0 <= i < |RequiredOptions| => RequiredOptions[i] in options);
    result := options["get_info" := VBool(false)];
    for i := 0 to |present|
      invariant result == options["get_info" := VBool(false)]
      invariant forall j :: 0 <= j < i ==> RequiredOptions[j] in options
    {
      if !present[i] {
        assert RequiredOptions[i] !in options;
        result := result["get_info" := VBool(true)];
        break;
      }
    }
  }

  /**
   * The interactive step: under `--cli`, asks in turn for host, port, name
   * and password, each only when it is absent, and stores the answer.
   */
  method PromptForMissing(options: Options, flags: Flags, answers: Answers) returns (filled: Options, prompts: seq<Prompt>)
    ensures filled == FillMissing(options, flags, answers)
    ensures prompts == PromptsFor(options, flags)
  {
    filled, prompts := options, [];
    if flags.cli {
      if "host" !in filled {
        prompts := prompts + [HostPrompt];
        filled := filled["host" := answers.host];
      }
      assert filled == FillOne(options, "host", answers.host);
      assert prompts == AskIf(options, "host", HostPrompt);
      ghost var afterHost := filled;
      if "port" !in filled {
        prompts := prompts + [PortPrompt];
        filled := filled["port" := answers.port];
      }
      assert filled == FillOne(afterHost, "port", answers.port);
      assert prompts == AskIf(options, "host", HostPrompt) + AskIf(options, "port", PortPrompt);
      ghost var afterPort := filled;
      if "name" !in filled {
        prompts := prompts + [NamePrompt];
        filled := filled["name" := VStr(ReplaceSpaces(answers.name))];
      }
      assert filled == FillOne(afterPort, "name", VStr(ReplaceSpaces(answers.name)));
      ghost var afterName := filled;
      ghost var askedBefore := prompts;
      if "password" !in filled {
        prompts := prompts + [GetPass];
        filled := filled["password" := VStr(answers.password)];
      }
      assert filled == FillOne(afterName, "password", VStr(answers.password));
      assert prompts == askedBefore + AskIf(options, "password", GetPass);
    }
  }

  /**
   * The non-interactive sources in order: the seed, the configuration file
   * (or the diagnostic when its path is not a file), the public pair, and
   * explicit `--host` and `--port`.
   */
  method CollectFromSources(flags: Flags, env: Environment) returns (options: Options, diagnostic: Option<string>)
    ensures options == BeforePrompting(flags, env)
    ensures diagnostic == Diagnostic(flags, env)
  {
    options := map["lang" := VStr(flags.mode), "logging" := VBool(flags.log)];
    diagnostic := None;
    if flags.config.Some? {
      if env.configIsFile {
        options := options + env.configEntries;
      } else {
        diagnostic := Some(UnableToLoad);
      }
    }
    ghost var merged := options;
    assert merged == MergeConfig(Seed(flags), flags, env);
    if flags.public {
      options := options["host" := env.publicHost]["port" := env.publicPort];
    }
    assert options == ApplyPublic(merged, flags, env);
    if Given(flags.host) {
      options := options["host" := VStr(flags.host.value)];
    }
    if Given(flags.port) {
      options := options["port" := VStr(flags.port.value)];
    }
  }

  /**
   * Builds the option mapping from the parsed flags and the environment.
   * Besides the outcome it reports the prompts it put to the operator, in
   * order, and the diagnostic it printed, if any.
   */
  method Resolve(flags: Flags, env: Environment) returns (outcome: Result<Options>, prompts: seq<Prompt>, diagnostic: Option<string>)
    ensures diagnostic == Diagnostic(flags, env)
    ensures prompts == PromptsFor(BeforePrompting(flags, env), flags)
    ensures outcome == Resolution(flags, env)
  {
    var options;
    options, diagnostic := CollectFromSources(flags, env);
    options, prompts := PromptForMissing(options, flags, env.answers);
    if flags.args.Some? && flags.args.value != [] {
      options := options["args" := VList(flags.args.value)];
    }
    assert options == Collected(flags, env);
    options := FlagCompleteness(options);
    outcome := CoerceOptions(options);
  }

  // ---------------------------------------------------------------------
  // Precedence of the sources
  // ---------------------------------------------------------------------

  /** What the configuration step leaves under `key`: the file's entry if it was loaded and has one. */
  lemma AfterConfig(flags: Flags, env: Environment, key: string)
    requires key != "lang" && key != "logging"
    ensures Lookup(MergeConfig(Seed(flags), flags, env), key) ==
      if ConfigLoaded(flags, env) && key in env.configEntries then Some(env.configEntries[key]) else None
  {
  }

  /** Prompting keeps a known value and, under `--cli`, fills an absent required one with its answer. */
  lemma AfterPrompting(opts: Options, flags: Flags, answers: Answers, key: string, answer: Value)
    requires key == "host" || key == "port" || key == "name" || key == "password"
    requires answer == match key
      case "host" => answers.host
      case "port" => answers.port
      case "name" => VStr(ReplaceSpaces(answers.name))
      case _ => VStr(answers.password)
    ensures Lookup(AttachArgs(FillMissing(opts, flags, answers), flags), key) ==
      if key in opts then Some(opts[key]) else if flags.cli then Some(answer) else None
  {
  }

  /**
   * The host the session gets, before coercion: a non-empty `--host` beats
   * the public pair, which beats the configuration file, which beats the
   * prompt; with none of them there is no host.
   */
  lemma HostPrecedence(flags: Flags, env: Environment)
    ensures Lookup(Collected(flags, env), "host") ==
      if Given(flags.host) then Some(VStr(flags.host.value))
      else if flags.public then Some(env.publicHost)
      else if ConfigLoaded(flags, env) && "host" in env.configEntries then Some(env.configEntries["host"])
      else if flags.cli then Some(env.answers.host)
      else None
  {
    AfterConfig(flags, env, "host");
    AfterPrompting(BeforePrompting(flags, env), flags, env.answers, "host", env.answers.host);
  }

  /** The port before coercion, with the same order of precedence as the host. */
  lemma PortPrecedence(flags: Flags, env: Environment)
    ensures Lookup(Collected(flags, env), "port") ==
      if Given(flags.port) then Some(VStr(flags.port.value))
      else if flags.public then Some(env.publicPort)
      else if ConfigLoaded(flags, env) && "port" in env.configEntries then Some(env.configEntries["port"])
      else if flags.cli then Some(env.answers.port)
      else None
  {
    AfterConfig(flags, env, "port");
    AfterPrompting(BeforePrompting(flags, env), flags, env.answers, "port", env.answers.port);
  }

  /** The name comes from the configuration file, or else from its prompt under `--cli`, spaces replaced. */
  lemma NameSource(flags: Flags, env: Environment)
    ensures Lookup(Collected(flags, env), "name") ==
      if ConfigLoaded(flags, env) && "name" in env.configEntries then Some(env.configEntries["name"])
      else if flags.cli then Some(VStr(ReplaceSpaces(env.answers.name)))
      else None
  {
    AfterConfig(flags, env, "name");
    AfterPrompting(BeforePrompting(flags, env), flags, env.answers, "name", VStr(ReplaceSpaces(env.answers.name)));
  }

  /** The password comes from the configuration file, or else from the masked prompt under `--cli`. */
  lemma PasswordSource(flags: Flags, env: Environment)
    ensures Lookup(Collected(flags, env), "password") ==
      if ConfigLoaded(flags, env) && "password" in env.configEntries then Some(env.configEntries["password"])
      else if flags.cli then Some(VStr(env.answers.password))
      else None
  {
    AfterConfig(flags, env, "password");
    AfterPrompting(BeforePrompting(flags, env), flags, env.answers, "password", VStr(env.answers.password));
  }

  /**
   * A non-empty `--host` is the final host, whatever the public pair and the
   * configuration file say; a non-empty `--port` is the final port as a
   * number, and the client stops when it is not a decimal literal.
   */
  lemma ExplicitFlagsWin(flags: Flags, env: Environment)
    ensures Given(flags.host) && Resolution(flags, env).Ok? ==>
      "host" in Resolution(flags, env).value && Resolution(flags, env).value["host"] == VStr(flags.host.value)
    ensures Given(flags.port) ==> (Resolution(flags, env).Ok? <==> ParseDecimal(flags.port.value).Some?)
    ensures Given(flags.port) && Resolution(flags, env).Ok? ==>
      Resolution(flags, env).value["port"] == VInt(ParseDecimal(flags.port.value).value)
  {
    var done := Completed(Collected(flags, env));
    HostPrecedence(flags, env);
    PortPrecedence(flags, env);
    if Given(flags.host) && Coerce(done).Ok? {
      UnlistedUnchanged(done, "host");
    }
    if Given(flags.port) {
      TextPortCoercion(done);
    }
  }

  /** `--public` alone yields the public pair; a port that is not text passes coercion unchanged. */
  lemma PublicPairUsed(flags: Flags, env: Environment)
    requires flags.public && !Given(flags.host) && !Given(flags.port)
    ensures Collected(flags, env)["host"] == env.publicHost && Collected(flags, env)["port"] == env.publicPort
    ensures !env.publicPort.VStr? ==>
      && Resolution(flags, env).Ok?
      && Resolution(flags, env).value["host"] == env.publicHost
      && Resolution(flags, env).value["port"] == env.publicPort
  {
    var done := Completed(Collected(flags, env));
    HostPrecedence(flags, env);
    PortPrecedence(flags, env);
    if !env.publicPort.VStr? {
      assert !PortRejected(done);
      UnlistedUnchanged(done, "host");
      NonTextUnchanged(done, "port");
    }
  }

  // ---------------------------------------------------------------------
  // Prompting and the completeness flag
  // ---------------------------------------------------------------------

  /** Under `--cli` every required option ends up present, so the completeness flag is false. */
  lemma CliLeavesNothingMissing(flags: Flags, env: Environment)
    requires flags.cli
    ensures !Missing(Collected(flags, env))
    ensures Resolution(flags, env).Ok? ==> Resolution(flags, env).value["get_info"] == VBool(false)
  {
    var done := Completed(Collected(flags, env));
    if Coerce(done).Ok? {
      NonTextUnchanged(done, "get_info");
    }
  }

  /**
   * `get_info` is true exactly when a required option is missing after
   * collection; a `get_info` read from the configuration file is discarded,
   * and the text-to-boolean converter of the table never applies to it.
   */
  lemma GetInfoReportsMissing(flags: Flags, env: Environment)
    ensures !Completed(Collected(flags, env))["get_info"].VStr?
    ensures Resolution(flags, env).Ok? ==>
      "get_info" in Resolution(flags, env).value
      && Resolution(flags, env).value["get_info"] == VBool(Missing(Collected(flags, env)))
  {
    var done := Completed(Collected(flags, env));
    if Coerce(done).Ok? {
      NonTextUnchanged(done, "get_info");
    }
  }

  /**
   * The client stops exactly when the collected port is text that is not a
   * decimal literal; otherwise it gets every collected option plus
   * `get_info`, with only `port` and `get_info` coerced.
   */
  lemma ResolutionOutcome(flags: Flags, env: Environment)
    ensures Resolution(flags, env).Err? <==> PortRejected(Collected(flags, env))
    ensures Resolution(flags, env).Ok? ==>
      Resolution(flags, env).value.Keys == Collected(flags, env).Keys + {"get_info"}
    ensures Resolution(flags, env).Ok? ==>
      forall k :: k in Collected(flags, env) && k != "port" && k != "get_info" ==>
        Resolution(flags, env).value[k] == Collected(flags, env)[k]
  {
    var c := Collected(flags, env);
    var done := Completed(c);
    assert PortRejected(done) <==> PortRejected(c);
    if Coerce(done).Ok? {
      forall k | k in c && k != "port" && k != "get_info"
        ensures Coerce(done).value[k] == c[k]
      {
        UnlistedUnchanged(done, k);
      }
    }
  }

  /** With nothing known beforehand, `--cli` asks for host, port, name and password, in that order. */
  lemma PromptOrder(opts: Options, flags: Flags)
    requires flags.cli && "host" !in opts && "port" !in opts && "name" !in opts && "password" !in opts
    ensures PromptsFor(opts, flags) == [HostPrompt, PortPrompt, NamePrompt, GetPass]
  {
  }

  /** No prompt is put when every required option is already known. */
  lemma NoPromptWhenComplete(flags: Flags, env: Environment)
    requires !Missing(BeforePrompting(flags, env))
    ensures PromptsFor(BeforePrompting(flags, env), flags) == []
    ensures Collected(flags, env) == AttachArgs(BeforePrompting(flags, env), flags)
  {
    var before := BeforePrompting(flags, env);
    assert RequiredOptions[0] in before && RequiredOptions[1] in before;
    assert RequiredOptions[2] in before && RequiredOptions[3] in before;
  }

  /**
   * Without any flag (no `--cli`, no configuration file) no prompt is put,
   * nothing is printed, and the client gets only the language, the logging
   * switch and `get_info` set to true.
   */
  lemma NoFlagsScenario(env: Environment)
    ensures var flags := Flags(false, false, None, None, "foxdot", None, None, false);
      && Diagnostic(flags, env) == None
      && PromptsFor(BeforePrompting(flags, env), flags) == []
      && Resolution(flags, env)
         == Ok(map["lang" := VStr("foxdot"), "logging" := VBool(false), "get_info" := VBool(true)])
  {
    var flags := Flags(false, false, None, None, "foxdot", None, None, false);
    var c := Collected(flags, env);
    assert c == map["lang" := VStr("foxdot"), "logging" := VBool(false)];
    assert Missing(c) by {
      assert RequiredOptions[0] !in c;
    }
    var done := Completed(c);
    assert done == map["lang" := VStr("foxdot"), "logging" := VBool(false), "get_info" := VBool(true)];
    assert !PortRejected(done);
    assert (map k | k in done :: CoercedValue(k, done[k])) == done;
  }
}
