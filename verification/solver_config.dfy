/** The solver settings record. Fields come from the common module's
    `SolverConfig`, plus the `autoconfig` flag that only the core module's
    `SolverConfig` declares; the orchestrator reads both through one object. */
module SolverConfig {
  import opened JavaLang

  datatype Config = Config(
    seed: Int64,
    repetitions: Int32,
    parallelExecutor: bool,
    nWorkers: Int32,
    benchmark: bool,
    treeDepth: Int32,
    maxDerivationRepetition: Int32,
    ignoreInitialMillis: Int64,
    intervalDurationMillis: Int64,
    experimentsPerParameter: Int32,
    logScaleArea: bool,
    minimumNumberOfExperiments: Int32,
    autorestart: bool,
    metrics: bool,
    autoconfig: bool)

  /** The field initialisers of a freshly constructed configuration. */
  function Default(): Config {
    Config(
      seed := 1234,
      repetitions := 1,
      parallelExecutor := false,
      nWorkers := -1,
      benchmark := false,
      treeDepth := 4,
      maxDerivationRepetition := 2,
      ignoreInitialMillis := 10_000,
      intervalDurationMillis := 50_000,
      experimentsPerParameter := 200,
      logScaleArea := true,
      minimumNumberOfExperiments := 10_000,
      autorestart := true,
      metrics := false,
      autoconfig := false)
  }

  /** `getnWorkers()`: the stored worker count when it is at least one, otherwise
      half the available processors (rounded down, so zero on one processor). */
  function GetNWorkers(c: Config, processors: Processors): (n: Int32)
    ensures c.nWorkers >= 1 ==> n == c.nWorkers
    ensures c.nWorkers < 1 ==> n * 2 <= processors < n * 2 + 2
  {
    if c.nWorkers < 1 then Div(processors, 2) else c.nWorkers
  }

  /** `setnWorkers` followed by `getnWorkers` returns the value set exactly when it
      is positive; the fallback never yields a negative count. */
  lemma SetNWorkersThenGet(c: Config, n: Int32, processors: Processors)
    ensures n >= 1 ==> GetNWorkers(c.(nWorkers := n), processors) == n
    ensures n < 1 ==> GetNWorkers(c.(nWorkers := n), processors) == processors / 2
    ensures GetNWorkers(c.(nWorkers := n), processors) >= 0
    ensures GetNWorkers(c.(nWorkers := n), processors) == 0 <==> n < 1 && processors == 1
  {
  }

  /** The documented defaults of a fresh configuration. */
  lemma DefaultValues()
    ensures Default().seed == 1234 && Default().repetitions == 1
    ensures !Default().parallelExecutor && Default().nWorkers == -1
    ensures Default().treeDepth == 4
    ensures Default().ignoreInitialMillis == 10_000 && Default().intervalDurationMillis == 50_000
    ensures Default().experimentsPerParameter == 200 && Default().minimumNumberOfExperiments == 10_000
    ensures !Default().autoconfig
  {
  }

  /** With the defaults, "50 parameters use 10k executions". */
  lemma DefaultBudgetRatio()
    ensures Default().experimentsPerParameter * 50 == Default().minimumNumberOfExperiments
  {
  }
}
