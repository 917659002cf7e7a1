# Irace autoconfiguration core of Mork, in Dafny

Mork is a Java framework for metaheuristics. It can tune an algorithm's parameters
with the irace tuner. This project models the decision logic of that tuning loop
and the pieces it depends on:

- **IraceOrchestrator**: what it writes into the irace templates and the callback
  irace calls once per candidate run. The templates get the six placeholder
  substitutions, the experiment budget and the parallelism. The callback checks the
  integration key, decodes the command line into a runtime configuration, appends
  it to the historic log, builds the candidate algorithm, then answers either the
  rejection sentinel `Inf 0` or `"<score> <seconds>"`.
- **AlgorithmConfiguration**: parses irace's `key=value` tokens, with Java's
  `String.split` semantics, quote stripping and duplicate-key rejection. Also its
  typed getters.
- **SolverConfig** and **InstanceConfiguration**: the settings records, their
  defaults, the worker-count fallback, and the per-experiment instance folder.
- **MultiStartAlgorithm**: the restart loop with its three termination rules, and
  `TimeUnit.toNanos` saturation.
- **WorkingOnResult**: the per-instance result accumulator. It checks instance
  consistency, sums times with `long` wrap-around and integer division, and picks
  the best solution.
- **IraceExperiment**: the travelling-salesman example's algorithm generator.

Supporting modules hold the Java semantics the code depends on:

- **JavaLang**: `int`/`long` wrap-around, truncating division, decimal
  `String.valueOf` and `Integer.parseInt`/`Long.parseLong`, `substring`, and the
  exceptions as a datatype.
- **JavaSplit**: `String.split` with the `=` and `\s+` patterns, which drops
  trailing empty strings.
- **BetterSolution**: the `getBetterSolution` fold that the multistart loop and the
  result accumulator share.
- **Wrappers**: `Option` and `Result`.

A Java exception is a `Failure` of a `Result`. Setters are datatype updates. The
program's collaborators are parameters of the model:

- base64 decoding;
- the instance lookup;
- the algorithm generator;
- the run itself;
- the rendering of a `double`;
- whether the problem maximizes;
- the clock;
- the number of processors.

`getBetterSolution` is a choice function `prefersNew(current, candidate)`.

## Model

| member | source | states |
|---|---|---|
| IraceOrchestrator.MaxExperiments | autoconfig/src/main/java/es/urjc/etsii/grafo/autoconfig/irace/IraceOrchestrator.java:194-203 | In autoconfig mode, fewer than one parameter throws IllegalArgumentException and nothing else does. Outside autoconfig the budget is 10000. Every budget is at least 10000. When the 32-bit product does not overflow, the budget is max(10000, perParameter × n). |
| IraceOrchestrator.OverflowingBudgetFallsBackToMinimum | autoconfig/src/main/java/es/urjc/etsii/grafo/autoconfig/irace/IraceOrchestrator.java:200 | The `int` product 200 × 10737419 wraps negative, so the budget silently falls back to the minimum 10000. |
| IraceOrchestrator.BudgetWithoutAutoconfig | autoconfig/src/main/java/es/urjc/etsii/grafo/autoconfig/irace/IraceOrchestrator.java:201-203 | Outside autoconfig the budget does not depend on the parameter count. |
| IraceOrchestrator.DefaultBudgetExamples | autoconfig/src/main/java/es/urjc/etsii/grafo/autoconfig/irace/IraceOrchestrator.java:196-200 | With 200 experiments per parameter: 1 and 50 parameters give 10000, 100 parameters give 20000. |
| IraceOrchestrator.CalculateMaxExperiments | autoconfig/src/main/java/es/urjc/etsii/grafo/autoconfig/irace/IraceOrchestrator.java:194-205 | Fails exactly when the budget does, with the same exception. On success the text parses back with `Integer.parseInt` to the budget. |
| IraceOrchestrator.Parallelism | autoconfig/src/main/java/es/urjc/etsii/grafo/autoconfig/irace/IraceOrchestrator.java:207-217 | 1 without the parallel executor. The configured worker count when it is at least 1. Otherwise half the processors. |
| IraceOrchestrator.NParallel | autoconfig/src/main/java/es/urjc/etsii/grafo/autoconfig/irace/IraceOrchestrator.java:207-217 | The text parses back to the parallelism. It is "0" exactly when the parallel executor is on, no worker count is set and there is one processor. |
| IraceOrchestrator.Substitutions | autoconfig/src/main/java/es/urjc/etsii/grafo/autoconfig/irace/IraceOrchestrator.java:183-192 | Succeeds iff the path map exists, the "irace" folder resolves and the budget is valid. Failures come in argument-evaluation order: NPE, then the budget's exception, then `Map.of`'s NPE. The keys are exactly the six placeholders. Each value is the key, the folder, "./middleware.sh", or text that parses back to the parallelism, budget or seed. |
| IraceOrchestrator.ToIraceRuntimeConfig | autoconfig/src/main/java/es/urjc/etsii/grafo/autoconfig/irace/IraceOrchestrator.java:271-282 | Fewer than four whitespace-separated fields is an index failure at the first missing index. Otherwise it succeeds iff the remaining tokens parse. The four positional fields and the parsed parameters land in the runtime configuration. |
| IraceOrchestrator.BuildConfig | autoconfig/src/main/java/es/urjc/etsii/grafo/autoconfig/irace/IraceOrchestrator.java:263-269 | A wrong key throws "Invalid integration key, got <key>". A matching key decodes the payload and converts it. |
| IraceOrchestrator.WrongKeyIgnoresPayload | autoconfig/src/main/java/es/urjc/etsii/grafo/autoconfig/irace/IraceOrchestrator.java:264-266 | With a wrong key, the payload and the decoder make no difference: the request is rejected before decoding. |
| IraceOrchestrator.DecodeJoined | autoconfig/src/main/java/es/urjc/etsii/grafo/autoconfig/irace/IraceOrchestrator.java:271-282 | Decoding inverts encoding. Four fields and parseable tokens joined by single spaces decode to those fields and the tokens' configuration. |
| IraceOrchestrator.DecodeTooShort | autoconfig/src/main/java/es/urjc/etsii/grafo/autoconfig/irace/IraceOrchestrator.java:272-277 | One to three words fail with ArrayIndexOutOfBounds at index = word count. |
| IraceOrchestrator.LeadingSpaceShiftsFields | autoconfig/src/main/java/es/urjc/etsii/grafo/autoconfig/irace/IraceOrchestrator.java:272-279 | A payload with a leading space yields an empty candidate field, and every field shifts one place right. |
| IraceOrchestrator.Score | autoconfig/src/main/java/es/urjc/etsii/grafo/autoconfig/irace/IraceOrchestrator.java:302-319 | The raw score is the area under the curve in milliseconds in autoconfig mode, else the solution score. It is negated exactly when the problem maximizes. |
| IraceOrchestrator.LowerScoreIsBetter | autoconfig/src/main/java/es/urjc/etsii/grafo/autoconfig/irace/IraceOrchestrator.java:317-319 | irace sees the run that is better for the problem as the lower score, in both directions. Maximizing mirrors minimizing. |
| IraceOrchestrator.ResultHasTwoFields | autoconfig/src/main/java/es/urjc/etsii/grafo/autoconfig/irace/IraceOrchestrator.java:322 | The `"%s %s"` answer splits back into exactly the score and the time. |
| IraceOrchestrator.FailedResultFields | autoconfig/src/main/java/es/urjc/etsii/grafo/autoconfig/irace/IraceOrchestrator.java:253-261 | The sentinel splits into the two fields "Inf" and "0". |
| IraceOrchestrator.MaxExecTime | autoconfig/src/main/java/es/urjc/etsii/grafo/autoconfig/irace/IraceOrchestrator.java:286 | Without `long` overflow, the time budget is the ignored warm-up plus the measured interval. |
| IraceOrchestrator.DefaultMaxExecTime | autoconfig/src/main/java/es/urjc/etsii/grafo/autoconfig/irace/IraceOrchestrator.java:286 | With the default settings the run budget is 60000 ms. |
| IraceOrchestrator.TimeLimit | autoconfig/src/main/java/es/urjc/etsii/grafo/autoconfig/irace/IraceOrchestrator.java:285-292 | A run has a time limit iff the solver is in autoconfig mode, and the limit is the run budget. |
| IraceOrchestrator.SingleExecution | autoconfig/src/main/java/es/urjc/etsii/grafo/autoconfig/irace/IraceOrchestrator.java:285-323 | The run gets the autoconfig-only time limit. A failing run propagates its exception. A completed run is answered with its direction-corrected score and its time. |
| IraceOrchestrator.Respond | autoconfig/src/main/java/es/urjc/etsii/grafo/autoconfig/irace/IraceOrchestrator.java:232-250 | A failed instance lookup propagates. An IllegalAlgorithmConfigException gives the sentinel, and any other generator failure propagates. A seed that is not a `long` throws NumberFormatException. |
| IraceOrchestrator.IraceCallback | autoconfig/src/main/java/es/urjc/etsii/grafo/autoconfig/irace/IraceOrchestrator.java:229-251 | A rejected request leaves the log untouched and throws. An accepted one is appended to the log before anything else, and the answer is Respond's. |
| IraceOrchestrator.WrongKeyLeavesLogUnchanged | autoconfig/src/main/java/es/urjc/etsii/grafo/autoconfig/irace/IraceOrchestrator.java:229-231 | A wrong key throws the key error and logs nothing. |
| IraceOrchestrator.LogIsAppendOnly | autoconfig/src/main/java/es/urjc/etsii/grafo/autoconfig/irace/IraceOrchestrator.java:229-231 | The historic log grows by at most one entry per call and keeps its earlier entries in order. |
| IraceOrchestrator.RejectedCandidateIsLogged | autoconfig/src/main/java/es/urjc/etsii/grafo/autoconfig/irace/IraceOrchestrator.java:231-240 | A candidate rejected as an illegal configuration gets the sentinel but stays in the log. |
| IraceOrchestrator.CompletedRunAnswer | autoconfig/src/main/java/es/urjc/etsii/grafo/autoconfig/irace/IraceOrchestrator.java:245-249 | The answer to a completed run is the rendered score, negated iff maximizing, then a space, then the rendered time. |
| IraceOrchestrator.TspGeneratorFailuresPropagate | autoconfig/src/main/java/es/urjc/etsii/grafo/autoconfig/irace/IraceOrchestrator.java:235-240 | With the TSP generator, an unbuildable configuration is never answered with the sentinel. Its exceptions are not the caught kind, so the callback throws. |
| AlgorithmConfiguration.Parse | autoconfig/src/main/java/es/urjc/etsii/grafo/autoconfig/irace/AlgorithmConfiguration.java:27-45 | Succeeds iff every token splits into at least two pieces, its value piece is not a lone quote, and all keys differ. The value piece may be empty (`a==b` gives `a` ↦ ""). The map has one entry per token, and each token's key maps to its unquoted value. The key set is the tokens' keys. |
| AlgorithmConfiguration.ParseIntoSucceeds | autoconfig/src/main/java/es/urjc/etsii/grafo/autoconfig/irace/AlgorithmConfiguration.java:29-43 | The loop completes iff every token is well formed and its key is new (not already seen and not repeated later). |
| AlgorithmConfiguration.ParseIntoContents | autoconfig/src/main/java/es/urjc/etsii/grafo/autoconfig/irace/AlgorithmConfiguration.java:29-43 | A completed loop keeps earlier entries and adds each token's key with its value. |
| AlgorithmConfiguration.ParseIntoWellFormedFailure | autoconfig/src/main/java/es/urjc/etsii/grafo/autoconfig/irace/AlgorithmConfiguration.java:34-36 | If every token is well formed, the only possible failure is the IllegalArgumentException for a duplicated key. |
| AlgorithmConfiguration.KeysOfSize | autoconfig/src/main/java/es/urjc/etsii/grafo/autoconfig/irace/AlgorithmConfiguration.java:34-36 | Distinct keys mean one map entry per token. |
| AlgorithmConfiguration.DuplicateKeyRejected | autoconfig/src/main/java/es/urjc/etsii/grafo/autoconfig/irace/AlgorithmConfiguration.java:34-36 | Two well-formed tokens with the same key make parsing throw IllegalArgumentException. |
| AlgorithmConfiguration.MalformedTokenRejected | autoconfig/src/main/java/es/urjc/etsii/grafo/autoconfig/irace/AlgorithmConfiguration.java:29-34 | A token that splits into fewer than two pieces makes parsing fail. If every earlier token was accepted, one piece gives the IllegalArgumentException "Invalid algorithm parameter, length != 2: " and no piece gives ArrayIndexOutOfBounds(0) from `keyValue[0]`. |
| AlgorithmConfiguration.ParseIntoSkipsAccepted | autoconfig/src/main/java/es/urjc/etsii/grafo/autoconfig/irace/AlgorithmConfiguration.java:29-43 | Once a prefix of the tokens is accepted, the loop's outcome is the outcome of the remaining tokens from the map that prefix built. |
| AlgorithmConfiguration.ParseIntoPlain | autoconfig/src/main/java/es/urjc/etsii/grafo/autoconfig/irace/AlgorithmConfiguration.java:29-43 | A plain `key=value` token with a new key adds exactly that entry, and the loop moves on to the next token. |
| AlgorithmConfiguration.TokenSegments | autoconfig/src/main/java/es/urjc/etsii/grafo/autoconfig/irace/AlgorithmConfiguration.java:30-37 | `key=value` followed by more `=`-separated text has that key and that raw value. Text after a second `=` is discarded. |
| AlgorithmConfiguration.Unquote | autoconfig/src/main/java/es/urjc/etsii/grafo/autoconfig/irace/AlgorithmConfiguration.java:37-41 | A value that starts and ends with a quote loses both. An unquoted value is kept. The single character `'` matches both tests and throws StringIndexOutOfBounds(1, 0). |
| AlgorithmConfiguration.UnquoteOfQuoted | autoconfig/src/main/java/es/urjc/etsii/grafo/autoconfig/irace/AlgorithmConfiguration.java:38-41 | Unquoting inverts quoting. |
| AlgorithmConfiguration.PlainToken | autoconfig/src/main/java/es/urjc/etsii/grafo/autoconfig/irace/AlgorithmConfiguration.java:30-42 | A token built from a separator-free key and an unquoted separator-free value is well formed and parses back to them. |
| AlgorithmConfiguration.IntSettingRoundTrip | autoconfig/src/main/java/es/urjc/etsii/grafo/autoconfig/irace/AlgorithmConfiguration.java:85-87 | An `int` written as `key=<decimal>` parses and reads back through `getValueAsInt(key, default)` to the same `int`. |
| AlgorithmConfiguration.MalformedExamples | autoconfig/src/main/java/es/urjc/etsii/grafo/autoconfig/irace/AlgorithmConfiguration.java:30-33 | "novalue", "" and "a=" are rejected with IllegalArgumentException. |
| AlgorithmConfiguration.SeparatorOnlyExample | autoconfig/src/main/java/es/urjc/etsii/grafo/autoconfig/irace/AlgorithmConfiguration.java:30-34 | "=" splits into no pieces, so the lookup of piece 0 throws ArrayIndexOutOfBounds(0). |
| AlgorithmConfiguration.LoneQuoteExample | autoconfig/src/main/java/es/urjc/etsii/grafo/autoconfig/irace/AlgorithmConfiguration.java:38-40 | "a='" throws StringIndexOutOfBounds. |
| AlgorithmConfiguration.ParseRepeatedPlainKey | autoconfig/src/main/java/es/urjc/etsii/grafo/autoconfig/irace/AlgorithmConfiguration.java:34-36 | Two plain tokens with the same key (as in "a=1 a=2") are rejected with "Duplicated key: " followed by that key. |
| AlgorithmConfiguration.SecondSeparatorExample | autoconfig/src/main/java/es/urjc/etsii/grafo/autoconfig/irace/AlgorithmConfiguration.java:30-42 | "a=b=c" gives a ↦ b. |
| AlgorithmConfiguration.ParseQuotedToken | autoconfig/src/main/java/es/urjc/etsii/grafo/autoconfig/irace/AlgorithmConfiguration.java:37-42 | Any `=`-free text between single quotes (spaces included, as in "msg='hello world'") is stored without its two outer quotes. |
| AlgorithmConfiguration.ParseThreePlainTokens | autoconfig/src/main/java/es/urjc/etsii/grafo/autoconfig/irace/AlgorithmConfiguration.java:22-45 | Three `key=value` tokens with distinct `=`-free keys and plain values parse to exactly those three entries (the worked example `a=1 b=true c=0.8` is one instance). |
| AlgorithmConfiguration.GetValue | autoconfig/src/main/java/es/urjc/etsii/grafo/autoconfig/irace/AlgorithmConfiguration.java:53-55 | Present iff the key is in the map, and then it is the stored value. |
| AlgorithmConfiguration.GetValueOr | autoconfig/src/main/java/es/urjc/etsii/grafo/autoconfig/irace/AlgorithmConfiguration.java:64-66 | The stored value if the key is present, else the default. |
| AlgorithmConfiguration.GetValueAsInt | autoconfig/src/main/java/es/urjc/etsii/grafo/autoconfig/irace/AlgorithmConfiguration.java:74-76 | Empty for a missing key. A present key succeeds iff its value is an `int` literal, and a bad literal throws NumberFormatException. |
| AlgorithmConfiguration.GetValueAsIntOr | autoconfig/src/main/java/es/urjc/etsii/grafo/autoconfig/irace/AlgorithmConfiguration.java:85-87 | The default for a missing key. A present key is parsed, and a bad literal throws even when a default is given. |
| AlgorithmConfiguration.GetValueAsDoubleOr | autoconfig/src/main/java/es/urjc/etsii/grafo/autoconfig/irace/AlgorithmConfiguration.java:95-108 | The default for a missing key, else the parse of the stored value. |
| AlgorithmConfiguration.GetConfig | autoconfig/src/main/java/es/urjc/etsii/grafo/autoconfig/irace/AlgorithmConfiguration.java:115-117 | The returned map agrees with `getValue` on every key. |
| AlgorithmConfiguration.FromMap | autoconfig/src/main/java/es/urjc/etsii/grafo/autoconfig/irace/AlgorithmConfiguration.java:18-20 | A configuration built from a map reads back that map. |
| IraceExperiment.BuildLocalSearch | example-tsp/src/main/java/es/urjc/etsii/grafo/TSP/experiments/IraceExperiment.java:29-42 | Succeeds iff both names are known. An unknown neighbourhood is reported first, then an unknown strategy, as "Not implemented: <name>". The result comes from the two tables, with the constructor flag `false`. |
| IraceExperiment.BuildAlgorithm | example-tsp/src/main/java/es/urjc/etsii/grafo/TSP/experiments/IraceExperiment.java:20-27 | A missing key throws NoSuchElement, the neighbourhood key checked first. It succeeds iff both values are known. The algorithm is the random constructive with the tabled local search. |
| IraceExperiment.OrElseThrow | example-tsp/src/main/java/es/urjc/etsii/grafo/TSP/experiments/IraceExperiment.java:22-23 | An empty optional throws NoSuchElement, and a present one yields its value. |
| IraceExperiment.GeneratorFailures | example-tsp/src/main/java/es/urjc/etsii/grafo/TSP/experiments/IraceExperiment.java:20-42 | The generator fails only with NoSuchElement or IllegalArgument, never IllegalAlgorithmConfig. |
| IraceExperiment.BuildLocalSearchInjective | example-tsp/src/main/java/es/urjc/etsii/grafo/TSP/experiments/IraceExperiment.java:29-42 | Distinct accepted name pairs build distinct local searches. |
| IraceExperiment.BuildLocalSearchOnto | example-tsp/src/main/java/es/urjc/etsii/grafo/TSP/experiments/IraceExperiment.java:29-42 | Every local search whose constructor flag is `false` is built by some name pair. |
| IraceExperiment.BothUnknownReportsNeighborhood | example-tsp/src/main/java/es/urjc/etsii/grafo/TSP/experiments/IraceExperiment.java:31-35 | With both names unknown, the message names the neighbourhood. |
| IraceExperiment.DecisionTable | example-tsp/src/main/java/es/urjc/etsii/grafo/TSP/experiments/IraceExperiment.java:29-42 | The four accepted combinations and what each builds. |
| MultiStartAlgorithm.New | core/src/main/java/es/urjc/etsii/grafo/solver/algorithms/MultiStartAlgorithm.java:27-37 | Throws IllegalArgumentException iff the bound on iterations without improving is not positive. Otherwise stores the bounds and the saturated time in nanoseconds. |
| MultiStartAlgorithm.NewWithIterations | core/src/main/java/es/urjc/etsii/grafo/solver/algorithms/MultiStartAlgorithm.java:40-42 | Always succeeds: minimum 0, no stagnation bound (INT_MAX), and 1000 days in nanoseconds. |
| MultiStartAlgorithm.ToNanos | core/src/main/java/es/urjc/etsii/grafo/solver/algorithms/MultiStartAlgorithm.java:36 | `toNanos` is the exact product clamped to the `long` range. |
| MultiStartAlgorithm.ThousandDaysInNanos | core/src/main/java/es/urjc/etsii/grafo/solver/algorithms/MultiStartAlgorithm.java:41 | 1000 days fit in a `long` without saturation. |
| MultiStartAlgorithm.Met | core/src/main/java/es/urjc/etsii/grafo/solver/algorithms/MultiStartAlgorithm.java:77-90 | The termination test as one predicate over the iteration count, the iterations without improving and the elapsed time. Its three-case reading is TerminationRule. |
| MultiStartAlgorithm.TerminationRule | core/src/main/java/es/urjc/etsii/grafo/solver/algorithms/MultiStartAlgorithm.java:77-90 | The cap always stops the loop. Below the minimum nothing else does. In between, stagnation or the clock stops it. |
| MultiStartAlgorithm.TerminationCriteriaIsMet | core/src/main/java/es/urjc/etsii/grafo/solver/algorithms/MultiStartAlgorithm.java:77-90 | At or past the iteration cap the loop stops. Below the cap and below the minimum it never stops. Between the minimum and the cap it stops iff the iterations without improving reach their bound or the elapsed time exceeds the budget. |
| MultiStartAlgorithm.StateAfter | core/src/main/java/es/urjc/etsii/grafo/solver/algorithms/MultiStartAlgorithm.java:52-69 | After k runs there is a best solution iff k > 0, and the counter of iterations without improving is at most k. |
| MultiStartAlgorithm.StateAfterIsFold | core/src/main/java/es/urjc/etsii/grafo/solver/algorithms/MultiStartAlgorithm.java:57-69 | After k runs, the loop's best is the `getBetterSolution` fold of the k solutions produced. |
| MultiStartAlgorithm.IterWICountsStagnation | core/src/main/java/es/urjc/etsii/grafo/solver/algorithms/MultiStartAlgorithm.java:58-68 | The counter of iterations without improving is less than k, and the best is the solution produced exactly that many runs ago. Every later run started with that best and did not replace it. |
| MultiStartAlgorithm.NoImprovementCounter | core/src/main/java/es/urjc/etsii/grafo/solver/algorithms/MultiStartAlgorithm.java:58-68 | If no later solution replaces the first, the best stays the first and the counter is k − 1. |
| MultiStartAlgorithm.Run | core/src/main/java/es/urjc/etsii/grafo/solver/algorithms/MultiStartAlgorithm.java:51-75 | The number of runs is within the cap, and zero (returning null) when the cap is not positive. The result is the fold of all solutions produced. The loop stops at the first check that meets the criteria, and no earlier check met them. |
| MultiStartAlgorithm.StopsNoEarlierThanMinimum | core/src/main/java/es/urjc/etsii/grafo/solver/algorithms/MultiStartAlgorithm.java:78-88 | A stop before the cap happens only at or after the minimum iterations. |
| WorkingOnResult.Create | src/main/java/es/urjc/etsii/grafo/io/WorkingOnResult.java:27-31 | A negative capacity throws IllegalArgumentException, and only then. Otherwise the result is empty, with no instance yet and the names stored. |
| WorkingOnResult.AddSolution | src/main/java/es/urjc/etsii/grafo/io/WorkingOnResult.java:39-47 | The stamped solution is appended even when the check fails. The first solution fixes the instance. A later solution from another instance raises an AssertionError, and only then. |
| WorkingOnResult.CreateConsistent | src/main/java/es/urjc/etsii/grafo/io/WorkingOnResult.java:27-31 | A fresh result is consistent: all solutions are from the recorded instance. |
| WorkingOnResult.AddSolutionConsistency | src/main/java/es/urjc/etsii/grafo/io/WorkingOnResult.java:39-47 | From a consistent result, adding raises no error iff the result stays consistent. |
| WorkingOnResult.GetSolutions | src/main/java/es/urjc/etsii/grafo/io/WorkingOnResult.java:106-108 | The solutions in insertion order. |
| WorkingOnResult.AddThenGetSolutions | src/main/java/es/urjc/etsii/grafo/io/WorkingOnResult.java:39-41 | Adding a solution appends it to the list `getSolutions` returns. |
| WorkingOnResult.SumNanos | src/main/java/es/urjc/etsii/grafo/io/WorkingOnResult.java:50-53 | The loop's `long` total is the exact sum wrapped to 64 bits. |
| WorkingOnResult.GetTotalTime | src/main/java/es/urjc/etsii/grafo/io/WorkingOnResult.java:70-76 | Wrapped total divided by 10^6 with truncation. Without overflow, a value m with m·10^6 ≤ total < (m+1)·10^6. |
| WorkingOnResult.GetAverageExecTime | src/main/java/es/urjc/etsii/grafo/io/WorkingOnResult.java:49-55 | No solutions throws ArithmeticException, and only then. Otherwise the two truncating divisions, which equal total / (n·10^6) when there is no overflow. |
| WorkingOnResult.AverageTimesCountAtMostTotal | src/main/java/es/urjc/etsii/grafo/io/WorkingOnResult.java:49-55 | Without overflow, the average in ms times the count never exceeds the total in ms. |
| WorkingOnResult.AverageWithoutOverflow | src/main/java/es/urjc/etsii/grafo/io/WorkingOnResult.java:54 | Dividing by n and then by 10^6 equals dividing by n·10^6 for totals that fit. |
| WorkingOnResult.GetBestSolution | src/main/java/es/urjc/etsii/grafo/io/WorkingOnResult.java:97-104 | null iff there are no solutions. Otherwise the `getBetterSolution` fold of the solutions, which is one of them. |
| BetterSolution.BestOf | src/main/java/es/urjc/etsii/grafo/io/WorkingOnResult.java:97-104 | The fold is empty iff the list is empty, and it returns a member of the list. |
| BetterSolution.BestOfSnoc | core/src/main/java/es/urjc/etsii/grafo/solver/algorithms/MultiStartAlgorithm.java:60-65 | One more solution applies `getBetterSolution` once more to the best so far. |
| BetterSolution.BestOfMinimizes | src/main/java/es/urjc/etsii/grafo/io/WorkingOnResult.java:97-104 | When "better" means strictly lower score, the fold returns a minimum-score solution, and the earliest among ties. |
| BetterSolution.Better | src/main/java/es/urjc/etsii/grafo/io/WorkingOnResult.java:101 | `getBetterSolution` returns the receiver or the candidate, the candidate exactly when it is preferred. |
| SolverConfig.GetNWorkers | common/src/main/java/es/urjc/etsii/grafo/config/SolverConfig.java:181-186 | A worker count of at least 1 is returned as set. Otherwise the result is half the processors, rounded down. |
| SolverConfig.SetNWorkersThenGet | common/src/main/java/es/urjc/etsii/grafo/config/SolverConfig.java:181-195 | After `setnWorkers(n)`, `getnWorkers()` is n for positive n, else processors / 2. It is never negative, and it is zero iff n < 1 on a single processor. |
| SolverConfig.DefaultValues | common/src/main/java/es/urjc/etsii/grafo/config/SolverConfig.java:18-89 | The field initialisers: seed 1234, 1 repetition, sequential executor, nWorkers −1, tree depth 4, 10 s + 50 s area window, 200 experiments per parameter, minimum 10000. |
| SolverConfig.DefaultBudgetRatio | common/src/main/java/es/urjc/etsii/grafo/config/SolverConfig.java:70-74 | 50 parameters at the default ratio give the minimum budget. |
| InstanceConfiguration.GetPath | core/src/main/java/es/urjc/etsii/grafo/config/InstanceConfiguration.java:39-41 | An unset path map throws NPE, and only then. Otherwise it returns the experiment's own folder, else the "default" folder, else null, each case exactly characterised. |
| InstanceConfiguration.UnknownExperimentUsesDefault | core/src/main/java/es/urjc/etsii/grafo/config/InstanceConfiguration.java:39-41 | An experiment without its own entry gets the "default" entry's answer. |
| InstanceConfiguration.SetPathThenGet | core/src/main/java/es/urjc/etsii/grafo/config/InstanceConfiguration.java:29-41 | After `setPath`, an experiment listed in the map gets its own folder. |
| InstanceConfiguration.DefaultValues | core/src/main/java/es/urjc/etsii/grafo/config/InstanceConfiguration.java:14-22 | Preload on, output folder "output", no selection, no path map (so `getPath` throws). |
| InstanceConfiguration.SettersRoundTrip | core/src/main/java/es/urjc/etsii/grafo/config/InstanceConfiguration.java:60-70 | Setters store their value and leave `getPath` unchanged. |
| JavaLang.ParseIntOfIntToString | autoconfig/src/main/java/es/urjc/etsii/grafo/autoconfig/irace/IraceOrchestrator.java:204 | `Integer.parseInt(String.valueOf(x)) == x` for every `int`. |
| JavaLang.ParseLongOfIntToString | autoconfig/src/main/java/es/urjc/etsii/grafo/autoconfig/irace/IraceOrchestrator.java:190 | `Long.parseLong(String.valueOf(x)) == x` for every `long`. |
| JavaLang.DecimalRoundTrip | autoconfig/src/main/java/es/urjc/etsii/grafo/autoconfig/irace/IraceOrchestrator.java:204 | The decimal digits of a natural number read back to it. |
| JavaLang.ParseIntegral | autoconfig/src/main/java/es/urjc/etsii/grafo/autoconfig/irace/IraceOrchestrator.java:245 | A parsed value lies in the type's range. A failure is a NumberFormatException carrying the input. Only an optional sign followed by at least one digit is accepted. Such a literal succeeds iff its signed decimal value is in range, and then yields that value. |
| JavaLang.Div | src/main/java/es/urjc/etsii/grafo/io/WorkingOnResult.java:54 | Java's `/` truncates toward zero: floor for non-negative dividends, minus the floor of the negation otherwise. |
| JavaLang.WrapLong | src/main/java/es/urjc/etsii/grafo/io/WorkingOnResult.java:52 | The `long` result is congruent to the exact value mod 2^64 and equal to it when in range. |
| JavaLang.WrapInt | autoconfig/src/main/java/es/urjc/etsii/grafo/autoconfig/irace/IraceOrchestrator.java:200 | The `int` result is congruent to the exact value mod 2^32 and equal to it when in range. |
| JavaLang.Substring | autoconfig/src/main/java/es/urjc/etsii/grafo/autoconfig/irace/AlgorithmConfiguration.java:40 | Succeeds iff 0 ≤ begin ≤ end ≤ length. Otherwise throws StringIndexOutOfBounds. The result holds the characters in between. |
| JavaSplit.SplitOn | autoconfig/src/main/java/es/urjc/etsii/grafo/autoconfig/irace/AlgorithmConfiguration.java:30 | No separator gives the whole string. Pieces contain no separator. The result is a prefix of the raw pieces, every raw piece it drops is empty, and when a separator occurs the result does not end in an empty piece. |
| JavaSplit.JoinPieces | autoconfig/src/main/java/es/urjc/etsii/grafo/autoconfig/irace/AlgorithmConfiguration.java:30 | Joining the raw pieces with the separator restores the string. |
| JavaSplit.SplitWhitespace | autoconfig/src/main/java/es/urjc/etsii/grafo/autoconfig/irace/IraceOrchestrator.java:272 | A string without whitespace is one token. Tokens contain no whitespace, and only the first can be empty. The result is a prefix of the raw whitespace-separated pieces, and every raw piece it drops is empty. |
| JavaSplit.JoinWsPieces | autoconfig/src/main/java/es/urjc/etsii/grafo/autoconfig/irace/IraceOrchestrator.java:272 | Joining the raw whitespace-separated pieces with single spaces gives the string with every run of whitespace collapsed to one space. |
| JavaSplit.SplitWhitespaceOfJoin | autoconfig/src/main/java/es/urjc/etsii/grafo/autoconfig/irace/IraceOrchestrator.java:272 | Splitting words joined by single spaces gives back the words. |
| JavaSplit.SplitWhitespaceOfLeadingSpace | autoconfig/src/main/java/es/urjc/etsii/grafo/autoconfig/irace/IraceOrchestrator.java:272 | A leading space adds one empty first token. |
| JavaSplit.LeadingWhitespaceGivesEmptyFirstToken | autoconfig/src/main/java/es/urjc/etsii/grafo/autoconfig/irace/IraceOrchestrator.java:272 | A string that starts with whitespace and is not all whitespace splits into an empty first token and at least one more. |
| JavaSplit.DropTrailingEmpty | autoconfig/src/main/java/es/urjc/etsii/grafo/autoconfig/irace/AlgorithmConfiguration.java:30 | The result is the longest prefix that does not end in an empty string. Everything dropped is empty. |

## Left out

- Template extraction, file writing, launching irace, and Spring wiring. These are I/O and framework plumbing. The model covers only the values written into the templates.
- Event publishing and logging, including `printStatus` and the debug messages. They do not affect results.
- `toString` of the multistart algorithm and of the result accumulator. These are text for logs.
- Area under the curve, `double` rounding and `TimeUtil.nanosToSecs`. The run is a collaborator returning `real` values.
- IraceOrchestrator.Score: uses exact reals, not IEEE doubles, so `-0.0` and NaN are not modelled.
- IraceOrchestrator.FormatResult: the `"%s"` rendering of a `double` is a parameter. The lemmas assume it yields one word.
- `RandomManager.localConfiguration`, metrics and `TimeControl` set-up. The seed, and in autoconfig mode the time limit, are handed to the run collaborator rather than modelled as global state. Outside autoconfig no limit is passed.
- The solution validator. It is part of the run collaborator, and its failure is a failure of that call.
- `algorithm.setBuilder`. It has no visible effect on the answer.
- `StringUtil.b64decode` and `StringUtil.generateSecret`. These are collaborators: the decoder is a parameter and the secret is a field.
- IraceOrchestrator.BuildConfig: the decoder is a total function, so a payload that is not valid base64 is not modelled. In Java that throws before the log append, so such a request would leave the log unchanged.
- IraceOrchestrator.MaxExperiments: the orchestrator calls `getIterationsPerParameter()`. The settings class defines no method of that name, so the model reads the `experimentsPerParameter` field. The minimum is the constant 10000, as the code has it, not the `minimumNumberOfExperiments` setting.
- SolverConfig: the `autoconfig` flag from core/src/main/java/es/urjc/etsii/grafo/config/SolverConfig.java:59 is merged into the common record. Plain getters and setters are field reads and datatype updates, with no row of their own.
- MultiStartAlgorithm.Run: the clock is a parameter `elapsed(k)`, so `System.nanoTime` differences that overflow are not modelled. The inner algorithm's outputs are a parameter `produce(k)`.
- BetterSolution.Better: `getBetterSolution` and the identity test `oldBest != best` are a choice function. Two distinct but equal solution objects are treated as one value.
- AlgorithmConfiguration.MalformedTokenRejected: the message for a token without `=` is only its fixed prefix. Java appends the split array's identity string (`[Ljava.lang.String;@<hash>`), which depends on the heap and is not modelled.
- JavaLang.ParseIntegral: only ASCII digits and an optional sign are accepted. Java also accepts other Unicode decimal digits.
- AlgorithmConfiguration.GetValueAsDoubleOr: `Double.parseDouble` is a parameter, because floating-point parsing is not modelled.
- WorkingOnResult.AddSolution: the assertion message's instance names are not rendered.
- WorkingOnResult.AddSolution: the source compares instances by reference (`instance != s.getInstance()`). The instance type `I` stands for that identity, and the model compares its values. Two distinct Java objects that are equal in content must therefore be distinct values of `I`; reference identity itself is not modelled.
- `setExecutionTimeInNanos` mutates the solution object. If the same object is added twice, both entries see the last time. The model stamps each entry separately.
- WorkingOnResult: `getAverageFOValue`, `getFormattedAverageFO`, `getStd` and `finish` are left out. They are floating-point statistics and formatting.
- Concurrency: the historic log is a `CopyOnWriteArrayList` and the model's log is a sequence, so concurrent callbacks are not modelled.
- src/main/java/solver/algorithms/MultiStartAlgorithm.java is not part of this model. Its body is commented out.
- `PatchCollections`, `Shake`, the events classes and `AbstractEventStorage` are not part of this model. They are context only.
