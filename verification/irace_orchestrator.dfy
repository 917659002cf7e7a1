/** The irace orchestrator's decision logic: the experiment budget and the
    parallelism written into the tuner's templates, the placeholder substitutions,
    and the callback the tuner calls once per candidate run. The callback checks
    the shared secret, decodes the command line into a runtime configuration,
    appends it to the historic log, builds the candidate algorithm, and answers
    either the rejection sentinel or "<score> <seconds>".

    The callback's collaborators are inputs: base64 decoding, the instance lookup,
    the algorithm generator, the run itself (with the random seed and the time
    budget it is given), the rendering of a `double` by `"%s"`, and whether the
    problem maximizes. */
module IraceOrchestrator {
  import opened Wrappers
  import opened JavaLang
  import JavaSplit
  import AlgorithmConfiguration
  import SolverConfig
  import InstanceConfiguration
  import IraceExperiment

  const K_INTEGRATION_KEY: string := "__INTEGRATION_KEY__"
  const K_INSTANCES_PATH: string := "__INSTANCES_PATH__"
  const K_TARGET_RUNNER: string := "__TARGET_RUNNER__"
  const K_PARALLEL: string := "__PARALLEL__"
  const K_MAX_EXP: string := "__MAX_EXPERIMENTS__"
  const K_SEED: string := "__SEED__"

  /** Every placeholder the templates contain. */
  const PLACEHOLDERS: set<string> := {K_INTEGRATION_KEY, K_INSTANCES_PATH, K_TARGET_RUNNER, K_PARALLEL, K_MAX_EXP, K_SEED}

  const TARGET_RUNNER: string := "./middleware.sh"

  /** The experiment whose instance folder the tuner uses. */
  const IRACE_EXPERIMENT: string := "irace"

  const DEFAULT_IRACE_EXPERIMENTS: Int32 := 10_000
  const MINIMUM_IRACE_EXPERIMENTS: Int32 := 10_000

  /** The answer that tells irace to discard a candidate immediately. */
  const FAILED_RESULT: string := "Inf 0"

  // ---------------------------------------------------------------------------
  // Experiment budget

  /** `calculateMaxExperiments` before the conversion to text. In autoconfig mode the
      budget is the per-parameter count times the number of parameters, in 32-bit
      arithmetic, but never below the minimum; otherwise it is the default. */
  function MaxExperiments(sc: SolverConfig.Config, nIraceParameters: Int32): (r: Result<Int32, Exception>)
    ensures r.Failure? <==> sc.autoconfig && nIraceParameters < 1
    ensures r.Failure? ==> r.error == IllegalArgument("nIraceParameters must be positive")
    ensures !sc.autoconfig ==> r == Success(DEFAULT_IRACE_EXPERIMENTS)
    ensures r.Success? ==> r.value >= MINIMUM_IRACE_EXPERIMENTS
    ensures sc.autoconfig && nIraceParameters >= 1 && INT_MIN <= sc.experimentsPerParameter * nIraceParameters <= INT_MAX ==>
              r == Success(Max(MINIMUM_IRACE_EXPERIMENTS, sc.experimentsPerParameter * nIraceParameters))
  {
    if sc.autoconfig then
      if nIraceParameters < 1 then Failure(IllegalArgument("nIraceParameters must be positive"))
      else
        var product := WrapInt(sc.experimentsPerParameter * nIraceParameters);
        Success(Max(MINIMUM_IRACE_EXPERIMENTS, product))
    else Success(DEFAULT_IRACE_EXPERIMENTS)
  }

  function Max(a: int, b: int): (m: int)
    ensures m >= a && m >= b && (m == a || m == b)
  {
    if a >= b then a else b
  }

  /** `calculateMaxExperiments(solverConfig, nIraceParameters)`: the budget as the
      decimal text the template receives. */
  function CalculateMaxExperiments(sc: SolverConfig.Config, nIraceParameters: Int32): (r: Result<string, Exception>)
    ensures r.Success? <==> MaxExperiments(sc, nIraceParameters).Success?
    ensures r.Failure? ==> r.error == MaxExperiments(sc, nIraceParameters).error
    ensures r.Success? ==> ParseInt(r.value) == Success(MaxExperiments(sc, nIraceParameters).value)
  {
    var n :- MaxExperiments(sc, nIraceParameters);
    ParseIntOfIntToString(n);
    Success(IntToString(n))
  }

  /** Outside autoconfig mode the budget is ten thousand whatever the parameter count. */
  lemma BudgetWithoutAutoconfig(sc: SolverConfig.Config, n1: Int32, n2: Int32)
    requires !sc.autoconfig
    ensures MaxExperiments(sc, n1) == MaxExperiments(sc, n2) == Success(10_000)
  {
  }

  /** With the default 200 experiments per parameter, 50 parameters use the
      minimum of ten thousand and 100 parameters use twenty thousand. */
  lemma DefaultBudgetExamples()
    ensures MaxExperiments(SolverConfig.Default().(autoconfig := true), 1) == Success(10_000)
    ensures MaxExperiments(SolverConfig.Default().(autoconfig := true), 50) == Success(10_000)
    ensures MaxExperiments(SolverConfig.Default().(autoconfig := true), 100) == Success(20_000)
  {
  }

  /** The budget multiplication is `int` arithmetic: a product past the `int` range
      wraps to a negative number, and the minimum is used instead. */
  lemma OverflowingBudgetFallsBackToMinimum()
    ensures 200 * 10_737_419 > INT_MAX
    ensures MaxExperiments(SolverConfig.Default().(autoconfig := true), 10_737_419) == Success(10_000)
  {
    assert WrapInt(200 * 10_737_419) == 2_147_483_800 - 0x1_0000_0000;
  }

  // ---------------------------------------------------------------------------
  // Parallelism

  /** The number of parallel runs irace is told to use: one without the parallel
      executor; otherwise the configured worker count when it is at least one,
      else half the processors. */
  function Parallelism(sc: SolverConfig.Config, processors: Processors): (n: Int32)
    ensures !sc.parallelExecutor ==> n == 1
    ensures sc.parallelExecutor && sc.nWorkers >= 1 ==> n == sc.nWorkers
    ensures sc.parallelExecutor && sc.nWorkers < 1 ==> n == processors / 2
  {
    if sc.parallelExecutor then
      var n := SolverConfig.GetNWorkers(sc, processors);
      if n < 1 then Div(processors, 2) else n
    else 1
  }

  /** `nParallel(solverConfig)`: the parallelism as decimal text. It is `"0"` only on a
      single processor with the parallel executor on and no worker count set. */
  function NParallel(sc: SolverConfig.Config, processors: Processors): (s: string)
    ensures ParseInt(s) == Success(Parallelism(sc, processors))
    ensures s == "0" <==> sc.parallelExecutor && sc.nWorkers < 1 && processors == 1
  {
    var n := Parallelism(sc, processors);
    ParseIntOfIntToString(n);
    ParseIntOfIntToString(0);
    assert IntToString(0) == "0";
    IntToString(n)
  }

  // ---------------------------------------------------------------------------
  // Template substitutions

  /** `getSubstitutions(integrationKey, solverConfig, instanceConfiguration)`. The
      six values are computed in source order: the instance folder of the `"irace"`
      experiment (a null path map throws), the parallelism, the budget (which may
      throw), the seed; `Map.of` then rejects a null folder. */
  function Substitutions(integrationKey: string, sc: SolverConfig.Config, ic: InstanceConfiguration.InstanceConfig,
                         nIraceParameters: Int32, processors: Processors): (r: Result<map<string, string>, Exception>)
    ensures r.Success? <==>
              && ic.path.Some?
              && InstanceConfiguration.GetPath(ic, IRACE_EXPERIMENT).value.Some?
              && MaxExperiments(sc, nIraceParameters).Success?
    ensures ic.path.None? ==> r == Failure(NullPointer)
    ensures ic.path.Some? && MaxExperiments(sc, nIraceParameters).Failure? ==>
              r == Failure(MaxExperiments(sc, nIraceParameters).error)
    ensures (ic.path.Some? && MaxExperiments(sc, nIraceParameters).Success?
             && InstanceConfiguration.GetPath(ic, IRACE_EXPERIMENT).value.None?) ==> r == Failure(NullPointer)
    ensures r.Success? ==> r.value.Keys == PLACEHOLDERS && |r.value| == 6
    ensures r.Success? ==> r.value[K_TARGET_RUNNER] == TARGET_RUNNER
    ensures r.Success? ==> r.value[K_INTEGRATION_KEY] == integrationKey
    ensures r.Success? ==> r.value[K_INSTANCES_PATH] == InstanceConfiguration.GetPath(ic, IRACE_EXPERIMENT).value.value
    ensures r.Success? ==> ParseInt(r.value[K_PARALLEL]) == Success(Parallelism(sc, processors))
    ensures r.Success? ==> ParseInt(r.value[K_MAX_EXP]) == Success(MaxExperiments(sc, nIraceParameters).value)
    ensures r.Success? ==> ParseLong(r.value[K_SEED]) == Success(sc.seed)
  {
    var instancesPath :- InstanceConfiguration.GetPath(ic, IRACE_EXPERIMENT);
    var parallel := NParallel(sc, processors);
    var maxExperiments :- CalculateMaxExperiments(sc, nIraceParameters);
    var seed := IntToString(sc.seed);
    ParseLongOfIntToString(sc.seed);
    match instancesPath
    case None => Failure(NullPointer)
    case Some(path) => Success(PlaceholderMap(integrationKey, path, parallel, maxExperiments, seed))
  }

  /** `Map.of` over the six placeholders, each bound to its own value. */
  function PlaceholderMap(integrationKey: string, path: string, parallel: string, maxExperiments: string,
                          seed: string): (m: map<string, string>)
    ensures m.Keys == PLACEHOLDERS && |m| == 6
    ensures m[K_INTEGRATION_KEY] == integrationKey && m[K_INSTANCES_PATH] == path
    ensures m[K_TARGET_RUNNER] == TARGET_RUNNER && m[K_PARALLEL] == parallel
    ensures m[K_MAX_EXP] == maxExperiments && m[K_SEED] == seed
  {
    var m := map[
      K_INTEGRATION_KEY := integrationKey,
      K_INSTANCES_PATH := path,
      K_TARGET_RUNNER := TARGET_RUNNER,
      K_PARALLEL := parallel,
      K_MAX_EXP := maxExperiments,
      K_SEED := seed];
    assert m.Keys == PLACEHOLDERS;
    m
  }

  // ---------------------------------------------------------------------------
  // Decoding a callback request

  /** What the tuner sends: the shared secret and the base64-encoded command line. */
  datatype ExecuteRequest = ExecuteRequest(key: string, config: string)

  /** `IraceRuntimeConfiguration`: the four positional fields and the candidate's
      parameter assignment. */
  datatype RuntimeConfig = RuntimeConfig(
    candidateConfiguration: string,
    instanceId: string,
    seed: string,
    instanceName: string,
    algorithmConfig: AlgorithmConfiguration.Configuration)

  /** `toIraceRuntimeConfig(commandline)`: split on runs of whitespace; fields 0 to 3
      are positional, the rest are `key=value` tokens. A missing field is an index
      failure at the first missing position. */
  function ToIraceRuntimeConfig(commandline: string): (r: Result<RuntimeConfig, Exception>)
    ensures |JavaSplit.SplitWhitespace(commandline)| < 4 ==>
              r == Failure(ArrayIndexOutOfBounds(|JavaSplit.SplitWhitespace(commandline)|))
    ensures var args := JavaSplit.SplitWhitespace(commandline);
            |args| >= 4 ==> (r.Success? <==> AlgorithmConfiguration.Parse(args[4..]).Success?)
    ensures var args := JavaSplit.SplitWhitespace(commandline);
            r.Success? ==> |args| >= 4 && r.value == RuntimeConfig(args[0], args[1], args[2], args[3], AlgorithmConfiguration.Parse(args[4..]).value)
  {
    var args := JavaSplit.SplitWhitespace(commandline);
    if |args| < 4 then Failure(ArrayIndexOutOfBounds(|args|))
    else
      var algorithmConfig :- AlgorithmConfiguration.Parse(args[4..]);
      Success(RuntimeConfig(args[0], args[1], args[2], args[3], algorithmConfig))
  }

  /** `buildConfig(request, integrationKey)`: the key must match exactly before
      anything is decoded. */
  function BuildConfig(request: ExecuteRequest, integrationKey: string, b64decode: string -> string)
    : (r: Result<RuntimeConfig, Exception>)
    ensures request.key != integrationKey ==>
              r == Failure(IllegalArgument("Invalid integration key, got " + request.key))
    ensures request.key == integrationKey ==> r == ToIraceRuntimeConfig(b64decode(request.config))
  {
    if request.key != integrationKey then Failure(IllegalArgument("Invalid integration key, got " + request.key))
    else ToIraceRuntimeConfig(b64decode(request.config))
  }

  /** A request with the wrong key is rejected the same way whatever its payload
      and whatever the decoder does: nothing is decoded. */
  lemma WrongKeyIgnoresPayload(request: ExecuteRequest, payload: string, integrationKey: string,
                               d1: string -> string, d2: string -> string)
    requires request.key != integrationKey
    ensures BuildConfig(request, integrationKey, d1) == BuildConfig(request.(config := payload), integrationKey, d2)
    ensures BuildConfig(request, integrationKey, d1).Failure? && BuildConfig(request, integrationKey, d1).error.IllegalArgument?
  {
  }

  /** Words with no whitespace
      in them. */
  predicate Words(ws: seq<string>) {
    forall i | 0 <= i < |ws| :: ws[i] != "" && JavaSplit.NoWhitespace(ws[i])
  }

  /** Decoding inverts encoding: four fields and some `key=value` tokens joined by
      single spaces decode to those fields and to the tokens' configuration. */
  lemma DecodeJoined(candidate: string, instanceId: string, seed: string, instance: string, tokens: seq<string>)
    requires Words([candidate, instanceId, seed, instance] + tokens)
    requires AlgorithmConfiguration.Parse(tokens).Success?
    ensures ToIraceRuntimeConfig(JavaSplit.Join([candidate, instanceId, seed, instance] + tokens, ' ')) ==
              Success(RuntimeConfig(candidate, instanceId, seed, instance, AlgorithmConfiguration.Parse(tokens).value))
  {
    var words := [candidate, instanceId, seed, instance] + tokens;
    JavaSplit.SplitWhitespaceOfJoin(words);
    assert words[4..] == tokens;
  }

  /** Fewer than four words fail at the first missing index. */
  lemma DecodeTooShort(words: seq<string>)
    requires 1 <= |words| < 4 && Words(words)
    ensures ToIraceRuntimeConfig(JavaSplit.Join(words, ' ')) == Failure(ArrayIndexOutOfBounds(|words|))
  {
    JavaSplit.SplitWhitespaceOfJoin(words);
  }

  /** A payload that starts with a space decodes with an empty candidate, and every
      field lands one position to the right: the instance name becomes the first
      parameter token. */
  lemma LeadingSpaceShiftsFields(candidate: string, instanceId: string, seed: string, instance: string, tokens: seq<string>)
    requires Words([candidate, instanceId, seed, instance] + tokens)
    ensures var r := ToIraceRuntimeConfig([' '] + JavaSplit.Join([candidate, instanceId, seed, instance] + tokens, ' '));
            && (r.Success? <==> AlgorithmConfiguration.Parse([instance] + tokens).Success?)
            && (r.Success? ==> r.value.candidateConfiguration == "" && r.value.instanceId == candidate
                               && r.value.seed == instanceId && r.value.instanceName == seed)
  {
    var words := [candidate, instanceId, seed, instance] + tokens;
    JavaSplit.SplitWhitespaceOfLeadingSpace(words);
    var args := [""] + words;
    assert args[4..] == [instance] + tokens;
  }

  // ---------------------------------------------------------------------------
  // Scoring a run

  /** What one run reports: the solution's score, the area under the best-objective
      curve (used in autoconfig mode, in nanosecond units) and the wall time. */
  datatype Execution = Execution(solutionScore: real, areaUnderCurve: real, elapsedSeconds: real)

  const NANOS_IN_MILLISECOND: real := 1_000_000.0

  /** The score before the sign correction. */
  function RawScore(autoconfig: bool, e: Execution): real {
    if autoconfig then e.areaUnderCurve / NANOS_IN_MILLISECOND else e.solutionScore
  }

  /** The score irace receives: irace only minimizes, so it is negated for a
      maximization problem. */
  function Score(autoconfig: bool, maximizing: bool, e: Execution): (score: real)
    ensures maximizing ==> score == -RawScore(autoconfig, e)
    ensures !maximizing ==> score == RawScore(autoconfig, e)
  {
    var raw := RawScore(autoconfig, e);
    if maximizing then raw * -1.0 else raw
  }

  /** Whichever the direction, the run that is better for the problem gets the
      lower score, and maximizing mirrors minimizing. */
  lemma LowerScoreIsBetter(autoconfig: bool, e1: Execution, e2: Execution)
    ensures RawScore(autoconfig, e1) < RawScore(autoconfig, e2) <==>
              Score(autoconfig, false, e1) < Score(autoconfig, false, e2)
    ensures RawScore(autoconfig, e1) > RawScore(autoconfig, e2) <==>
              Score(autoconfig, true, e1) < Score(autoconfig, true, e2)
    ensures Score(autoconfig, true, e1) == -Score(autoconfig, false, e1)
  {
  }

  /** `String.format("%s %s", score, elapsedSeconds)`. */
  function FormatResult(score: real, elapsedSeconds: real, formatDouble: real -> string): string {
    formatDouble(score) + " " + formatDouble(elapsedSeconds)
  }

  /** A rendering of a `double` by `"%s"` is never empty and has no whitespace in it. */
  predicate FormatsAsWord(formatDouble: real -> string, x: real) {
    formatDouble(x) != "" && JavaSplit.NoWhitespace(formatDouble(x))
  }

  /** The answer reads back, on the tuner's side, as exactly two fields: the score
      then the time. */
  lemma ResultHasTwoFields(score: real, elapsedSeconds: real, formatDouble: real -> string)
    requires FormatsAsWord(formatDouble, score) && FormatsAsWord(formatDouble, elapsedSeconds)
    ensures JavaSplit.SplitWhitespace(FormatResult(score, elapsedSeconds, formatDouble)) ==
              [formatDouble(score), formatDouble(elapsedSeconds)]
  {
    var words := [formatDouble(score), formatDouble(elapsedSeconds)];
    assert JavaSplit.Join(words[1..], ' ') == words[1];
    assert JavaSplit.Join(words, ' ') == FormatResult(score, elapsedSeconds, formatDouble);
    JavaSplit.SplitWhitespaceOfJoin(words);
  }

  /** The sentinel reads back as two fields too: an infinite cost and no time. */
  lemma FailedResultFields()
    ensures JavaSplit.SplitWhitespace(FAILED_RESULT) == ["Inf", "0"]
  {
    var words := ["Inf", "0"];
    assert JavaSplit.Join(words[1..], ' ') == "0";
    assert JavaSplit.Join(words, ' ') == FAILED_RESULT;
    JavaSplit.SplitWhitespaceOfJoin(words);
  }

  /** The time budget of one run in autoconfig mode: the ignored warm-up plus the
      measured interval, in milliseconds (`long` arithmetic). */
  function MaxExecTime(sc: SolverConfig.Config): (millis: Int64)
    ensures 0 <= sc.ignoreInitialMillis && 0 <= sc.intervalDurationMillis
            && sc.ignoreInitialMillis + sc.intervalDurationMillis <= LONG_MAX ==>
              millis == sc.ignoreInitialMillis + sc.intervalDurationMillis
  {
    WrapLong(sc.ignoreInitialMillis + sc.intervalDurationMillis)
  }

  lemma DefaultMaxExecTime()
    ensures MaxExecTime(SolverConfig.Default()) == 60_000
  {
  }

  /** The time limit a run is started under: only autoconfig mode sets one, and it
      is `MaxExecTime`; otherwise the run is started with no limit set. */
  function TimeLimit(sc: SolverConfig.Config): (limit: Option<Int64>)
    ensures limit.Some? <==> sc.autoconfig
    ensures limit.Some? ==> limit.value == MaxExecTime(sc)
  {
    if sc.autoconfig then Some(MaxExecTime(sc)) else None
  }

  // ---------------------------------------------------------------------------
  // The callback

  /** The callback's collaborators. `execute(algorithm, instance, seed, timeLimit)`
      runs the algorithm after reseeding the random generator, under the time
      limit when there is one. */
  datatype Collaborators<!I, !A> = Collaborators(
    b64decode: string -> string,
    getInstance: string -> Result<I, Exception>,
    buildAlgorithm: AlgorithmConfiguration.Configuration -> Result<A, Exception>,
    execute: (A, I, Int64, Option<Int64>) -> Result<Execution, Exception>,
    formatDouble: real -> string,
    maximizing: bool)

  /** The orchestrator's state: its settings, its secret, and the historic log. */
  datatype Orchestrator = Orchestrator(
    solverConfig: SolverConfig.Config,
    integrationKey: string,
    configHistoric: seq<RuntimeConfig>)

  /** `singleExecution(algorithm, instance)` with the seed already parsed. */
  function SingleExecution<I, A>(sc: SolverConfig.Config, collaborators: Collaborators<I, A>,
                                 algorithm: A, instance: I, seed: Int64): (r: Result<string, Exception>)
    ensures collaborators.execute(algorithm, instance, seed, TimeLimit(sc)).Failure? ==>
              r == Failure(collaborators.execute(algorithm, instance, seed, TimeLimit(sc)).error)
    ensures r.Success? ==>
              var e := collaborators.execute(algorithm, instance, seed, TimeLimit(sc)).value;
              r.value == FormatResult(Score(sc.autoconfig, collaborators.maximizing, e), e.elapsedSeconds, collaborators.formatDouble)
  {
    var e :- collaborators.execute(algorithm, instance, seed, TimeLimit(sc));
    var score := Score(sc.autoconfig, collaborators.maximizing, e);
    Success(FormatResult(score, e.elapsedSeconds, collaborators.formatDouble))
  }

  /** Everything after the log append: instance lookup, algorithm generation (an
      illegal configuration gives the sentinel, any other failure propagates), seed
      parsing, and the run. */
  function Respond<I, A>(sc: SolverConfig.Config, config: RuntimeConfig, collaborators: Collaborators<I, A>)
    : (r: Result<string, Exception>)
    ensures collaborators.getInstance(config.instanceName).Failure? ==>
              r == Failure(collaborators.getInstance(config.instanceName).error)
    ensures collaborators.getInstance(config.instanceName).Success? ==>
              var built := collaborators.buildAlgorithm(config.algorithmConfig);
              && (built.Failure? && built.error.IllegalAlgorithmConfig? ==> r == Success(FAILED_RESULT))
              && (built.Failure? && !built.error.IllegalAlgorithmConfig? ==> r == Failure(built.error))
              && (built.Success? && ParseLong(config.seed).Failure? ==> r == Failure(NumberFormat(config.seed)))
  {
    var instance :- collaborators.getInstance(config.instanceName);
    match collaborators.buildAlgorithm(config.algorithmConfig)
    case Failure(e) => if e.IllegalAlgorithmConfig? then Success(FAILED_RESULT) else Failure(e)
    case Success(algorithm) =>
      var seed :- ParseLong(config.seed);
      SingleExecution(sc, collaborators, algorithm, instance, seed)
  }

  /** What the callback leaves behind: the new log and the answer (or exception). */
  datatype CallbackOutcome = CallbackOutcome(configHistoric: seq<RuntimeConfig>, response: Result<string, Exception>)

  /** `iraceCallback(request)`. */
  function IraceCallback<I, A>(o: Orchestrator, request: ExecuteRequest, collaborators: Collaborators<I, A>)
    : (out: CallbackOutcome)
    ensures var built := BuildConfig(request, o.integrationKey, collaborators.b64decode);
            && (built.Failure? ==> out == CallbackOutcome(o.configHistoric, Failure(built.error)))
            && (built.Success? ==> out.configHistoric == o.configHistoric + [built.value])
            && (built.Success? ==> out.response == Respond(o.solverConfig, built.value, collaborators))
  {
    match BuildConfig(request, o.integrationKey, collaborators.b64decode)
    case Failure(e) => CallbackOutcome(o.configHistoric, Failure(e))
    case Success(config) =>
      CallbackOutcome(o.configHistoric + [config], Respond(o.solverConfig, config, collaborators))
  }

  /** A request with the wrong key leaves the log as it was and throws. */
  lemma WrongKeyLeavesLogUnchanged<I, A>(o: Orchestrator, request: ExecuteRequest, collaborators: Collaborators<I, A>)
    requires request.key != o.integrationKey
    ensures IraceCallback(o, request, collaborators).configHistoric == o.configHistoric
    ensures IraceCallback(o, request, collaborators).response ==
              Failure(IllegalArgument("Invalid integration key, got " + request.key))
  {
  }

  /** The log only grows, by at most one entry per call, and never loses or
      reorders earlier entries. */
  lemma LogIsAppendOnly<I, A>(o: Orchestrator, request: ExecuteRequest, collaborators: Collaborators<I, A>)
    ensures var h := IraceCallback(o, request, collaborators).configHistoric;
            |o.configHistoric| <= |h| <= |o.configHistoric| + 1 && h[..|o.configHistoric|] == o.configHistoric
  {
  }

  /** A candidate the generator rejects as an illegal configuration is answered
      with the sentinel, yet it has been logged already. */
  lemma RejectedCandidateIsLogged<I, A>(o: Orchestrator, request: ExecuteRequest, collaborators: Collaborators<I, A>)
    requires BuildConfig(request, o.integrationKey, collaborators.b64decode).Success?
    requires var config := BuildConfig(request, o.integrationKey, collaborators.b64decode).value;
             && collaborators.getInstance(config.instanceName).Success?
             && collaborators.buildAlgorithm(config.algorithmConfig).Failure?
             && collaborators.buildAlgorithm(config.algorithmConfig).error.IllegalAlgorithmConfig?
    ensures IraceCallback(o, request, collaborators).response == Success(FAILED_RESULT)
    ensures IraceCallback(o, request, collaborators).configHistoric ==
              o.configHistoric + [BuildConfig(request, o.integrationKey, collaborators.b64decode).value]
  {
  }

  /** A completed run is answered with its score, negated exactly when the problem
      maximizes, then one space, then its time. */
  lemma CompletedRunAnswer<I, A>(sc: SolverConfig.Config, config: RuntimeConfig, collaborators: Collaborators<I, A>,
                                 instance: I, algorithm: A, seed: Int64, e: Execution)
    requires collaborators.getInstance(config.instanceName) == Success(instance)
    requires collaborators.buildAlgorithm(config.algorithmConfig) == Success(algorithm)
    requires ParseLong(config.seed) == Success(seed)
    requires collaborators.execute(algorithm, instance, seed, TimeLimit(sc)) == Success(e)
    ensures var score := if collaborators.maximizing then -RawScore(sc.autoconfig, e) else RawScore(sc.autoconfig, e);
            Respond(sc, config, collaborators) ==
              Success(collaborators.formatDouble(score) + " " + collaborators.formatDouble(e.elapsedSeconds))
  {
  }

  /** With the travelling-salesman generator plugged in, a configuration it cannot
      build is never answered with the sentinel: its exceptions are not the kind
      the callback catches, so they propagate to the caller. */
  lemma TspGeneratorFailuresPropagate<I>(o: Orchestrator, request: ExecuteRequest,
                                         collaborators: Collaborators<I, IraceExperiment.Algorithm>)
    requires collaborators.buildAlgorithm == IraceExperiment.BuildAlgorithm
    requires BuildConfig(request, o.integrationKey, collaborators.b64decode).Success?
    requires IraceExperiment.BuildAlgorithm(BuildConfig(request, o.integrationKey, collaborators.b64decode).value.algorithmConfig).Failure?
    ensures IraceCallback(o, request, collaborators).response.Failure?
  {
    var config := BuildConfig(request, o.integrationKey, collaborators.b64decode).value;
    IraceExperiment.GeneratorFailures(config.algorithmConfig);
  }
}
