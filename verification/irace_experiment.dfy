/** The travelling-salesman example's algorithm generator: a decision table from
    two configuration values, the neighbourhood name and the improvement strategy,
    to a simple algorithm made of a random constructive and one local search. */
module IraceExperiment {
  import opened Wrappers
  import opened JavaLang
  import AlgorithmConfiguration

  datatype Neighborhood = Insert | Swap

  datatype Improvement = FirstImprovement | BestImprovement

  /** A local search; `flag` is the boolean its constructor receives first (this
      experiment always passes `false`). */
  datatype LocalSearch = LocalSearch(improvement: Improvement, flag: bool, neighborhood: Neighborhood)

  datatype Constructive = TSPRandomConstructive

  /** `SimpleAlgorithm(constructive, localSearch)`. */
  datatype Algorithm = SimpleAlgorithm(constructive: Constructive, localSearch: LocalSearch)

  const LOCAL_SEARCH_KEY: string := "localsearch"
  const STRATEGY_KEY: string := "localSearchStrategy"

  /** The neighbourhood names the generator knows. */
  const NEIGHBORHOODS: map<string, Neighborhood> := map["insert" := Insert, "swap" := Swap]

  /** The strategy names the generator knows. */
  const STRATEGIES: map<string, Improvement> := map["first" := FirstImprovement, "best" := BestImprovement]

  function NotImplemented(name: string): Exception {
    IllegalArgument("Not implemented: " + name)
  }

  /** `buildLocalSearch(name, strategy)`: the neighbourhood switch runs first, so an
      unknown name is reported even when the strategy is unknown too. */
  function BuildLocalSearch(name: string, strategy: string): (r: Result<LocalSearch, Exception>)
    ensures r.Success? <==> name in NEIGHBORHOODS && strategy in STRATEGIES
    ensures name !in NEIGHBORHOODS ==> r == Failure(NotImplemented(name))
    ensures name in NEIGHBORHOODS && strategy !in STRATEGIES ==> r == Failure(NotImplemented(strategy))
    ensures r.Success? ==> r.value == LocalSearch(STRATEGIES[strategy], false, NEIGHBORHOODS[name])
  {
    var neighborhood :- match name {
      case "insert" => Success(Insert)
      case "swap" => Success(Swap)
      case _ => Failure(NotImplemented(name))
    };
    match strategy {
      case "first" => Success(LocalSearch(FirstImprovement, false, neighborhood))
      case "best" => Success(LocalSearch(BestImprovement, false, neighborhood))
      case _ => Failure(NotImplemented(strategy))
    }
  }

  /** `buildAlgorithm(config)`: both keys must be present (`orElseThrow` on the
      neighbourhood first), then the local search is built. */
  function BuildAlgorithm(config: AlgorithmConfiguration.Configuration): (r: Result<Algorithm, Exception>)
    ensures LOCAL_SEARCH_KEY !in config.params ==> r == Failure(NoSuchElement)
    ensures LOCAL_SEARCH_KEY in config.params && STRATEGY_KEY !in config.params ==> r == Failure(NoSuchElement)
    ensures r.Success? <==>
              && LOCAL_SEARCH_KEY in config.params && config.params[LOCAL_SEARCH_KEY] in NEIGHBORHOODS
              && STRATEGY_KEY in config.params && config.params[STRATEGY_KEY] in STRATEGIES
    ensures r.Success? ==> r.value.constructive == TSPRandomConstructive
    ensures r.Success? ==> r.value.localSearch.neighborhood == NEIGHBORHOODS[config.params[LOCAL_SEARCH_KEY]]
    ensures r.Success? ==> r.value.localSearch.improvement == STRATEGIES[config.params[STRATEGY_KEY]]
    ensures r.Success? ==> !r.value.localSearch.flag
  {
    var name :- OrElseThrow(AlgorithmConfiguration.GetValue(config, LOCAL_SEARCH_KEY));
    var strategy :- OrElseThrow(AlgorithmConfiguration.GetValue(config, STRATEGY_KEY));
    var localSearch :- BuildLocalSearch(name, strategy);
    Success(SimpleAlgorithm(TSPRandomConstructive, localSearch))
  }

  /** `Optional.orElseThrow()`. */
  function OrElseThrow<T>(o: Option<T>): (r: Result<T, Exception>)
    ensures o.None? <==> r == Failure(NoSuchElement)
    ensures o.Some? ==> r == Success(o.value)
  {
    match o
    case None => Failure(NoSuchElement)
    case Some(v) => Success(v)
  }

  /** Every failure of the generator is an `IllegalArgumentException` or a
      `NoSuchElementException`, never an `IllegalAlgorithmConfigException`. */
  lemma GeneratorFailures(config: AlgorithmConfiguration.Configuration)
    ensures BuildAlgorithm(config).Failure? ==>
              BuildAlgorithm(config).error == NoSuchElement || BuildAlgorithm(config).error.IllegalArgument?
    ensures BuildAlgorithm(config).Failure? ==> !BuildAlgorithm(config).error.IllegalAlgorithmConfig?
  {
  }

  /** Different name pairs build different local searches: the table is one-to-one. */
  lemma BuildLocalSearchInjective(n1: string, s1: string, n2: string, s2: string)
    requires BuildLocalSearch(n1, s1).Success? && BuildLocalSearch(n2, s2).Success?
    ensures BuildLocalSearch(n1, s1) == BuildLocalSearch(n2, s2) <==> n1 == n2 && s1 == s2
  {
  }

  /** Every local search the generator can produce has a name pair that builds it. */
  lemma BuildLocalSearchOnto(ls: LocalSearch)
    requires !ls.flag
    ensures exists n, s :: BuildLocalSearch(n, s) == Success(ls)
  {
    var n := if ls.neighborhood == Insert then "insert" else "swap";
    var s := if ls.improvement == FirstImprovement then "first" else "best";
    assert BuildLocalSearch(n, s) == Success(ls);
  }

  /** With both names unknown, the message names the neighbourhood. */
  lemma BothUnknownReportsNeighborhood()
    ensures BuildLocalSearch("2opt", "random") == Failure(IllegalArgument("Not implemented: 2opt"))
  {
    assert "2opt" !in NEIGHBORHOODS;
    assert "Not implemented: " + "2opt" == "Not implemented: 2opt";
  }

  /** The four configurations the generator accepts. */
  lemma DecisionTable()
    ensures BuildLocalSearch("insert", "first") == Success(LocalSearch(FirstImprovement, false, Insert))
    ensures BuildLocalSearch("insert", "best") == Success(LocalSearch(BestImprovement, false, Insert))
    ensures BuildLocalSearch("swap", "first") == Success(LocalSearch(FirstImprovement, false, Swap))
    ensures BuildLocalSearch("swap", "best") == Success(LocalSearch(BestImprovement, false, Swap))
  {
  }
}
