/**
 * The steps that build the client's option mapping, each as a function from
 * the mapping before the step to the mapping after it. Applied in order they
 * give the sources their precedence: the seed, then the configuration file,
 * then the public server pair, then explicit `--host`/`--port`, then prompted
 * answers (which only fill gaps), then the interpreter arguments.
 */
module Stages {
  import opened Values
  import opened Text

  /** The parsed command line; `None` stands for a flag that was not given. */
  datatype Flags = Flags(
    cli: bool,                   // -i/--cli
    public: bool,                // -p/--public
    host: Option<string>,        // -H/--host
    port: Option<string>,        // -P/--port
    mode: string,                // -m/--mode, "foxdot" unless given
    args: Option<seq<string>>,   // -a/--args, the rest of the command line
    config: Option<string>,      // -c/--config, "client.cfg" when given bare
    log: bool)                   // -l/--log

  /** What the interactive prompts return when they are asked. */
  datatype Answers = Answers(host: Value, port: Value, name: string, password: string)

  /** Everything the resolver learns from outside the command line. */
  datatype Environment = Environment(
    configIsFile: bool,          // whether the configuration path names an existing file
    configEntries: Options,      // what reading that file yields
    publicHost: Value,           // the public server address pair
    publicPort: Value,
    answers: Answers)

  /** A prompt put to the operator: a line read with an optional default, or a masked password read. */
  datatype Prompt = Readin(question: string, default: Option<string>) | GetPass

  const RequiredOptions: seq<string> := ["host", "port", "name", "password"]

  const HostPrompt := Readin("Troop Server Address", Some("localhost"))
  const PortPrompt := Readin("Port Number", Some("57890"))
  const NamePrompt := Readin("Enter a name", None)

  /** The prompt of each required option, in the order of `RequiredOptions`. */
  const RequiredPrompts: seq<Prompt> := [HostPrompt, PortPrompt, NamePrompt, GetPass]

  /** The position of a prompt in the order the prompts are put. */
  function Rank(p: Prompt): nat
  {
    if p == HostPrompt then 0 else if p == PortPrompt then 1 else if p == NamePrompt then 2 else 3
  }

  /** The four prompts are distinct and ranked in the order they are put. */
  lemma PromptRanks()
    ensures forall m :: 0 <= m < |RequiredPrompts| ==> Rank(RequiredPrompts[m]) == m
  {
    assert HostPrompt.question[0] == 'T' && PortPrompt.question[0] == 'P' && NamePrompt.question[0] == 'E';
  }

  /** The message printed when the configuration path is not an existing file. */
  const UnableToLoad := "Unable to load configuration from 'client.cfg'"

  /** Python truthiness of an optional text flag: given and not empty. */
  predicate Given(flag: Option<string>)
  {
    flag.Some? && flag.value != ""
  }

  predicate ArgsGiven(flags: Flags)
  {
    flags.args.Some? && flags.args.value != []
  }

  predicate ConfigLoaded(flags: Flags, env: Environment)
  {
    flags.config.Some? && env.configIsFile
  }

  /** Some required option is absent. */
  predicate Missing(opts: Options)
  {
    exists i :: 0 <= i < |RequiredOptions| && RequiredOptions[i] !in opts
  }

  /** The mapping starts with the language mode and the logging switch, and nothing else. */
  function Seed(flags: Flags): (r: Options)
    ensures r.Keys == {"lang", "logging"}
    ensures r["lang"] == VStr(flags.mode) && r["logging"] == VBool(flags.log)
  {
    map["lang" := VStr(flags.mode), "logging" := VBool(flags.log)]
  }

  /** The diagnostic printed by the configuration step, if any. */
  function Diagnostic(flags: Flags, env: Environment): (r: Option<string>)
    ensures r.Some? <==> flags.config.Some? && !env.configIsFile
    ensures r.Some? ==> r.value == UnableToLoad
  {
    if flags.config.Some? && !env.configIsFile then Some(UnableToLoad) else None
  }

  /**
   * Entries of an existing configuration file are merged in and win over
   * same-named options; a missing path or a path that is not a file leaves
   * the mapping as it was.
   */
  function MergeConfig(opts: Options, flags: Flags, env: Environment): (r: Options)
    ensures ConfigLoaded(flags, env) ==> r.Keys == opts.Keys + env.configEntries.Keys
    ensures ConfigLoaded(flags, env) ==> forall k :: k in env.configEntries ==> r[k] == env.configEntries[k]
    ensures ConfigLoaded(flags, env) ==> forall k :: k in opts && k !in env.configEntries ==> r[k] == opts[k]
    ensures !ConfigLoaded(flags, env) ==> r == opts
  {
    if flags.config.Some? then
      if env.configIsFile then opts + env.configEntries else opts
    else opts
  }

  /** `--public` sets both `host` and `port` to the public pair and touches nothing else. */
  function ApplyPublic(opts: Options, flags: Flags, env: Environment): (r: Options)
    ensures flags.public ==> r.Keys == opts.Keys + {"host", "port"}
    ensures flags.public ==> r["host"] == env.publicHost && r["port"] == env.publicPort
    ensures forall k :: k in opts && k != "host" && k != "port" ==> k in r && r[k] == opts[k]
    ensures !flags.public ==> r == opts
  {
    if flags.public then opts["host" := env.publicHost]["port" := env.publicPort] else opts
  }

  /** A non-empty `--host` or `--port` replaces the option of that name; an absent or empty one changes nothing. */
  function ApplyExplicit(opts: Options, flags: Flags): (r: Options)
    ensures r.Keys == opts.Keys + (if Given(flags.host) then {"host"} else {}) + (if Given(flags.port) then {"port"} else {})
    ensures Given(flags.host) ==> r["host"] == VStr(flags.host.value)
    ensures Given(flags.port) ==> r["port"] == VStr(flags.port.value)
    ensures forall k :: k in opts && !(k == "host" && Given(flags.host)) && !(k == "port" && Given(flags.port)) ==> r[k] == opts[k]
  {
    var withHost := if Given(flags.host) then opts["host" := VStr(flags.host.value)] else opts;
    if Given(flags.port) then withHost["port" := VStr(flags.port.value)] else withHost
  }

  /** Stores `v` under `key` unless `key` is already present. */
  function FillOne(opts: Options, key: string, v: Value): Options
  {
    if key in opts then opts else opts[key := v]
  }

  /**
   * Under `--cli`, each required option that is still absent is filled from
   * its prompt; options already present are never overwritten. Without
   * `--cli` nothing is added.
   */
  function FillMissing(opts: Options, flags: Flags, answers: Answers): (r: Options)
    ensures forall k :: k in opts ==> k in r && r[k] == opts[k]
    ensures flags.cli ==> r.Keys == opts.Keys + {"host", "port", "name", "password"} && !Missing(r)
    ensures !flags.cli ==> r == opts
    ensures flags.cli && "name" !in opts ==> r["name"] == VStr(ReplaceSpaces(answers.name)) && ' ' !in r["name"].s
  {
    if flags.cli then
      var o1 := FillOne(opts, "host", answers.host);
      var o2 := FillOne(o1, "port", answers.port);
      var o3 := FillOne(o2, "name", VStr(ReplaceSpaces(answers.name)));
      FillOne(o3, "password", VStr(answers.password))
    else opts
  }

  /** The prompt for `key` when it is absent. */
  function AskIf(opts: Options, key: string, p: Prompt): seq<Prompt>
  {
    if key in opts then [] else [p]
  }

  /** Every prompt of `r` is the prompt of one of the first `k` required options. */
  predicate RanksBelow(r: seq<Prompt>, k: nat)
  {
    forall i :: 0 <= i < |r| ==> Rank(r[i]) < k && r[i] == RequiredPrompts[Rank(r[i])]
  }

  /** The prompts of `r` come in the order of the required options, each at most once. */
  predicate Increasing(r: seq<Prompt>)
  {
    forall i, j :: 0 <= i < j < |r| ==> Rank(r[i]) < Rank(r[j])
  }

  /** For each of the first `k` required options, its prompt is in `r` exactly when the option is absent. */
  predicate AskedExactly(r: seq<Prompt>, opts: Options, k: nat)
    requires k <= |RequiredOptions|
  {
    forall m :: 0 <= m < k ==> (RequiredPrompts[m] in r <==> RequiredOptions[m] !in opts)
  }

  /**
   * Asking about required option `k` after the prompts for the earlier ones
   * keeps the prompts in order and asks exactly for the absent options.
   */
  lemma AskNext(before: seq<Prompt>, opts: Options, k: nat, key: string, p: Prompt)
    requires k < |RequiredOptions| && key == RequiredOptions[k] && p == RequiredPrompts[k]
    requires RanksBelow(before, k) && Increasing(before) && AskedExactly(before, opts, k)
    ensures RanksBelow(before + AskIf(opts, key, p), k + 1)
    ensures Increasing(before + AskIf(opts, key, p))
    ensures AskedExactly(before + AskIf(opts, key, p), opts, k + 1)
  {
    PromptRanks();
    assert p !in before;
    if key !in opts {
      var r := before + [p];
      assert forall i :: 0 <= i < |before| ==> r[i] == before[i];
      assert forall m :: 0 <= m < k ==> RequiredPrompts[m] != p;
      assert forall m :: 0 <= m < k ==> (RequiredPrompts[m] in r <==> RequiredPrompts[m] in before);
    }
  }

  /** The prompts for host, port, name and password, in turn, are in order and ask exactly for the absent options. */
  lemma PromptsInOrder(opts: Options)
    ensures var r := AskIf(opts, "host", HostPrompt) + AskIf(opts, "port", PortPrompt)
      + AskIf(opts, "name", NamePrompt) + AskIf(opts, "password", GetPass);
      RanksBelow(r, 4) && Increasing(r) && AskedExactly(r, opts, 4)
  {
    var r1 := AskIf(opts, "host", HostPrompt);
    assert RanksBelow(r1, 1) && Increasing(r1) && AskedExactly(r1, opts, 1) by {
      AskNext([], opts, 0, "host", HostPrompt);
      assert [] + r1 == r1;
    }
    var r2 := r1 + AskIf(opts, "port", PortPrompt);
    assert RanksBelow(r2, 2) && Increasing(r2) && AskedExactly(r2, opts, 2) by {
      AskNext(r1, opts, 1, "port", PortPrompt);
    }
    var r3 := r2 + AskIf(opts, "name", NamePrompt);
    assert RanksBelow(r3, 3) && Increasing(r3) && AskedExactly(r3, opts, 3) by {
      AskNext(r2, opts, 2, "name", NamePrompt);
    }
    AskNext(r3, opts, 3, "password", GetPass);
  }

  /** The prompts put to the operator, in order: one per required option that is absent, and only under `--cli`. */
  function PromptsFor(opts: Options, flags: Flags): (r: seq<Prompt>)
    ensures !flags.cli ==> r == []
    ensures |r| <= 4
    ensures forall i :: 0 <= i < |r| ==> r[i] in RequiredPrompts
    ensures forall i, j :: 0 <= i < j < |r| ==> Rank(r[i]) < Rank(r[j])
    ensures flags.cli ==> (HostPrompt in r <==> "host" !in opts) && (PortPrompt in r <==> "port" !in opts)
    ensures flags.cli ==> (NamePrompt in r <==> "name" !in opts) && (GetPass in r <==> "password" !in opts)
  {
    if flags.cli then
      var r := AskIf(opts, "host", HostPrompt) + AskIf(opts, "port", PortPrompt)
        + AskIf(opts, "name", NamePrompt) + AskIf(opts, "password", GetPass);
      PromptsInOrder(opts);
      assert RequiredPrompts == [HostPrompt, PortPrompt, NamePrompt, GetPass];
      assert RequiredOptions == ["host", "port", "name", "password"];
      r
    else []
  }

  /** A non-empty interpreter argument list is stored under `args`; otherwise the mapping is unchanged. */
  function AttachArgs(opts: Options, flags: Flags): (r: Options)
    ensures ArgsGiven(flags) ==> r.Keys == opts.Keys + {"args"} && r["args"] == VList(flags.args.value)
    ensures ArgsGiven(flags) ==> forall k :: k in opts && k != "args" ==> r[k] == opts[k]
    ensures !ArgsGiven(flags) ==> r == opts
  {
    if ArgsGiven(flags) then opts["args" := VList(flags.args.value)] else opts
  }

  /** The mapping the prompts see: seed, configuration file, public pair, explicit flags. */
  function BeforePrompting(flags: Flags, env: Environment): Options
  {
    ApplyExplicit(ApplyPublic(MergeConfig(Seed(flags), flags, env), flags, env), flags)
  }

  /** The mapping after every collecting step, before the completeness flag and coercion. */
  function Collected(flags: Flags, env: Environment): Options
  {
    AttachArgs(FillMissing(BeforePrompting(flags, env), flags, env.answers), flags)
  }

  /** The completeness flag is stored under `get_info`, replacing any earlier value. */
  function Completed(opts: Options): (r: Options)
    ensures r.Keys == opts.Keys + {"get_info"}
    ensures r["get_info"] == VBool(Missing(opts))
    ensures forall k :: k in opts && k != "get_info" ==> r[k] == opts[k]
  {
    opts["get_info" := VBool(Missing(opts))]
  }
}
