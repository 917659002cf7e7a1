/** The multistart algorithm: run an inner algorithm again and again, keep the best
    solution so far, and stop on an iteration cap, on too many iterations without
    improvement, or on a time limit, the last two only after a minimum number of
    iterations. The inner algorithm's outputs and the clock are inputs of the
    model: `produce(k)` is the solution of the k-th run (counting from zero) and
    `elapsed(k)` the nanoseconds since the start at the termination check made
    after k runs. */
module MultiStartAlgorithm {
  import opened Wrappers
  import opened JavaLang
  import opened BetterSolution

  // ---------------------------------------------------------------------------
  // Time units

  datatype TimeUnit = Nanoseconds | Microseconds | Milliseconds | Seconds | Minutes | Hours | Days

  /** Nanoseconds in one unit. */
  function NanosPer(u: TimeUnit): (n: nat)
    ensures n >= 1
  {
    match u
    case Nanoseconds => 1
    case Microseconds => 1_000
    case Milliseconds => 1_000_000
    case Seconds => 1_000_000_000
    case Minutes => 60_000_000_000
    case Hours => 3_600_000_000_000
    case Days => 86_400_000_000_000
  }

  /** `TimeUnit.toNanos(duration)`: multiplies by the unit's scale, saturating at the
      `long` bounds instead of overflowing. */
  function ToNanos(u: TimeUnit, duration: Int64): (r: Int64)
    ensures r == Clamp(duration * NanosPer(u))
  {
    var s := NanosPer(u);
    if s == 1 then duration
    else
      var m := LONG_MAX / s;
      if duration > m then
        MulAbove(duration, s, m);
        LONG_MAX
      else if duration < -m then
        MulAbove(-(duration as int), s, m);
        LONG_MIN
      else
        MulWithin(duration, s, m);
        duration * s
  }

  /** The nearest `long` to an exact value. */
  function Clamp(x: int): (r: Int64)
    ensures LONG_MIN <= x <= LONG_MAX ==> r == x
    ensures x > LONG_MAX ==> r == LONG_MAX
    ensures x < LONG_MIN ==> r == LONG_MIN
  {
    if x > LONG_MAX then LONG_MAX else if x < LONG_MIN then LONG_MIN else x
  }

  lemma MulAbove(d: int, s: nat, m: int)
    requires s >= 1 && m == LONG_MAX / s && d > m
    ensures d * s > LONG_MAX
  {
    assert d >= m + 1;
    assert d * s >= (m + 1) * s;
  }

  lemma MulWithin(d: int, s: nat, m: int)
    requires s >= 1 && m == LONG_MAX / s && -m <= d <= m
    ensures -LONG_MAX <= d * s <= LONG_MAX
  {
    assert m * s <= LONG_MAX;
    if d >= 0 {
      assert d * s <= m * s;
    } else {
      assert (-d) * s <= m * s;
    }
  }

  // ---------------------------------------------------------------------------
  // Construction

  datatype MultiStart = MultiStart(
    algorithmName: string,
    maxIterations: Int32,
    minIterations: Int32,
    maxIterationsWithoutImproving: Int32,
    nanotime: Int64)

  /** The seven-argument constructor: a non-positive bound on iterations without
      improvement is rejected; the time limit is stored in nanoseconds. */
  function New(algorithmName: string, maxIterations: Int32, minIterations: Int32,
               maxIterationsWithoutImproving: Int32, maxTime: Int32, timeUnit: TimeUnit): (r: Result<MultiStart, Exception>)
    ensures r.Failure? <==> maxIterationsWithoutImproving <= 0
    ensures r.Failure? ==> r.error.IllegalArgument?
    ensures r.Success? ==> r.value.maxIterations == maxIterations && r.value.minIterations == minIterations
    ensures r.Success? ==> r.value.maxIterationsWithoutImproving == maxIterationsWithoutImproving > 0
    ensures r.Success? ==> r.value.nanotime == Clamp(maxTime * NanosPer(timeUnit))
  {
    if maxIterationsWithoutImproving <= 0 then Failure(IllegalArgument("Explica cavero"))
    else Success(MultiStart(algorithmName, maxIterations, minIterations, maxIterationsWithoutImproving,
                            ToNanos(timeUnit, maxTime)))
  }

  /** The three-argument constructor: no minimum, no bound on iterations without
      improvement, and a thousand days of time. */
  function NewWithIterations(algorithmName: string, maxIterations: Int32): (r: Result<MultiStart, Exception>)
    ensures r.Success?
    ensures r.value.maxIterations == maxIterations && r.value.minIterations == 0
    ensures r.value.maxIterationsWithoutImproving == INT_MAX
    ensures r.value.nanotime == 1_000 * 86_400 * 1_000_000_000
  {
    New(algorithmName, maxIterations, 0, INT_MAX, 1_000, Days)
  }

  // ---------------------------------------------------------------------------
  // Termination and the loop

  /** `terminationCriteriaIsMet(iter, iterWI, startT)` with the elapsed time given. */
  predicate Met(ms: MultiStart, iter: int, iterWI: int, elapsed: int) {
    || iter >= ms.maxIterations
    || (iter >= ms.minIterations && (iterWI >= ms.maxIterationsWithoutImproving || elapsed > ms.nanotime))
  }

  /** The iteration cap always stops the loop; below the minimum nothing else can;
      between the two, either the stagnation bound or the clock stops it. */
  lemma TerminationRule(ms: MultiStart, iter: int, iterWI: int, elapsed: int)
    ensures iter >= ms.maxIterations ==> Met(ms, iter, iterWI, elapsed)
    ensures iter < ms.maxIterations && iter < ms.minIterations ==> !Met(ms, iter, iterWI, elapsed)
    ensures iter < ms.maxIterations && iter >= ms.minIterations ==>
              (Met(ms, iter, iterWI, elapsed) <==> iterWI >= ms.maxIterationsWithoutImproving || elapsed > ms.nanotime)
  {
  }

  /** Best solution and iterations-without-improvement counter after `k` runs, as
      the loop body updates them: the first solution, or a solution that replaces
      the best, resets the counter; any other run increments it. */
  function StateAfter<S>(prefersNew: (S, S) -> bool, produce: nat -> S, k: nat): (st: (Option<S>, nat))
    ensures k == 0 <==> st.0.None?
    ensures st.1 <= k
    decreases k
  {
    if k == 0 then (None, 0)
    else
      var (best, iterWI) := StateAfter(prefersNew, produce, k - 1);
      var solution := produce(k - 1);
      match best
      case None => (Some(solution), 0)
      case Some(b) => if prefersNew(b, solution) then (Some(solution), 0) else (best, iterWI + 1)
  }

  /** One run of the loop body, as a step of `StateAfter`. */
  lemma StateAfterStep<S>(prefersNew: (S, S) -> bool, produce: nat -> S, k: nat)
    ensures StateAfter(prefersNew, produce, k + 1) ==
              var st := StateAfter(prefersNew, produce, k);
              if st.0.None? || prefersNew(st.0.value, produce(k)) then (Some(produce(k)), 0)
              else (st.0, st.1 + 1)
  {
  }

  /** The first `n` solutions the inner algorithm returns. */
  function Produced<S>(produce: nat -> S, n: nat): (xs: seq<S>)
    ensures |xs| == n
    ensures forall i | 0 <= i < n :: xs[i] == produce(i)
  {
    if n == 0 then [] else Produced(produce, n - 1) + [produce(n - 1)]
  }

  /** The loop's best solution is the fold of `getBetterSolution` over everything
      produced so far. */
  lemma {:induction false} StateAfterIsFold<S>(prefersNew: (S, S) -> bool, produce: nat -> S, k: nat)
    ensures StateAfter(prefersNew, produce, k).0 == BestOf(prefersNew, Produced(produce, k))
    decreases k
  {
    if k > 0 {
      StateAfterIsFold(prefersNew, produce, k - 1);
      BestOfSnoc(prefersNew, Produced(produce, k - 1), produce(k - 1));
    }
  }

  /** The best was still the solution of run `from` when each run `j` in
      `from + 1 .. k - 1` started, and that run's solution did not replace it. */
  ghost predicate KeptSince<S>(prefersNew: (S, S) -> bool, produce: nat -> S, from: nat, k: nat) {
    forall j: nat {:trigger StateAfter(prefersNew, produce, j)} | from < j < k ::
      StateAfter(prefersNew, produce, j).0 == Some(produce(from)) && !prefersNew(produce(from), produce(j))
  }

  /** The counter is the number of runs since the current best was produced: the
      best came from run `k - 1 - iterWI`, and no later run replaced it. */
  lemma {:induction false} IterWICountsStagnation<S>(prefersNew: (S, S) -> bool, produce: nat -> S, k: nat)
    requires k > 0
    ensures StateAfter(prefersNew, produce, k).1 < k
    ensures StateAfter(prefersNew, produce, k).0 == Some(produce(k - 1 - StateAfter(prefersNew, produce, k).1))
    ensures KeptSince(prefersNew, produce, k - 1 - StateAfter(prefersNew, produce, k).1, k)
    decreases k
  {
    StateAfterStep(prefersNew, produce, k - 1);
    if k > 1 {
      IterWICountsStagnation(prefersNew, produce, k - 1);
      var before := StateAfter(prefersNew, produce, k - 1);
      var from: nat := k - 2 - before.1;
      if !prefersNew(produce(from), produce(k - 1)) {
        assert StateAfter(prefersNew, produce, k) == (before.0, before.1 + 1);
        assert KeptSince(prefersNew, produce, from, k - 1);
        assert KeptSince(prefersNew, produce, from, k);
      }
    }
  }

  /** `algorithm(instance)`: returns the best solution found, or nothing when the
      iteration cap is not positive, together with the number of runs made. */
  method Run<S>(ms: MultiStart, prefersNew: (S, S) -> bool, produce: nat -> S, elapsed: nat -> int)
    returns (best: Option<S>, iterations: nat)
    requires ms.maxIterationsWithoutImproving > 0
    ensures iterations <= if ms.maxIterations > 0 then ms.maxIterations else 0
    ensures ms.maxIterations <= 0 ==> best.None? && iterations == 0
    ensures best == BestOf(prefersNew, Produced(produce, iterations))
    ensures Met(ms, iterations, StateAfter(prefersNew, produce, iterations).1, elapsed(iterations))
    ensures forall k: nat | k < iterations :: !Met(ms, k, StateAfter(prefersNew, produce, k).1, elapsed(k))
  {
    best := None;
    var iter: Int32 := 0;
    var iterWI: Int32 := 0;
    while !TerminationCriteriaIsMet(ms, iter, iterWI, elapsed(iter))
      invariant 0 <= iter <= if ms.maxIterations > 0 then ms.maxIterations else 0
      invariant 0 <= iterWI <= iter
      invariant (best, iterWI as nat) == StateAfter(prefersNew, produce, iter)
      invariant NotMetBefore(ms, prefersNew, produce, elapsed, iter)
      decreases ms.maxIterations - iter
    {
      StateAfterStep(prefersNew, produce, iter);
      ghost var checked := iter;
      assert !Met(ms, checked, StateAfter(prefersNew, produce, checked).1, elapsed(checked));
      iter := iter + 1;
      iterWI := iterWI + 1;
      var solution := produce(iter - 1);
      var oldBest := best;
      if best.None? {
        best := Some(solution);
        iterWI := 0;
      } else {
        best := Some(Better(prefersNew, best.value, solution));
        if prefersNew(oldBest.value, solution) {
          iterWI := 0;
        }
      }
      assert (best, iterWI as nat) == StateAfter(prefersNew, produce, iter);
      NotMetExtend(ms, prefersNew, produce, elapsed, checked);
    }
    iterations := iter;
    StateAfterIsFold(prefersNew, produce, iterations);
  }

  /** No termination check before the `n`-th one succeeded. */
  ghost predicate NotMetBefore<S>(ms: MultiStart, prefersNew: (S, S) -> bool, produce: nat -> S, elapsed: nat -> int, n: nat) {
    forall k: nat | k < n :: !Met(ms, k, StateAfter(prefersNew, produce, k).1, elapsed(k))
  }

  lemma NotMetExtend<S>(ms: MultiStart, prefersNew: (S, S) -> bool, produce: nat -> S, elapsed: nat -> int, n: nat)
    requires NotMetBefore(ms, prefersNew, produce, elapsed, n)
    requires !Met(ms, n, StateAfter(prefersNew, produce, n).1, elapsed(n))
    ensures NotMetBefore(ms, prefersNew, produce, elapsed, n + 1)
  {
  }

  /** `terminationCriteriaIsMet(iter, iterWI, startT)`, evaluated in source order:
      the clock is read only when the first two tests do not decide. */
  function TerminationCriteriaIsMet(ms: MultiStart, iter: int, iterWI: int, elapsed: int): (met: bool)
    ensures iter >= ms.maxIterations ==> met
    ensures iter < ms.maxIterations && iter < ms.minIterations ==> !met
    ensures ms.minIterations <= iter < ms.maxIterations ==>
              (met <==> iterWI >= ms.maxIterationsWithoutImproving || elapsed > ms.nanotime)
  {
    if iter >= ms.maxIterations then true
    else if iter >= ms.minIterations then
      if iterWI >= ms.maxIterationsWithoutImproving then true
      else elapsed > ms.nanotime
    else false
  }

  /** A run that stops before the cap has made at least the minimum number of
      iterations. */
  lemma StopsNoEarlierThanMinimum<S>(ms: MultiStart, prefersNew: (S, S) -> bool, produce: nat -> S,
                                     elapsed: nat -> int, iterations: nat)
    requires Met(ms, iterations, StateAfter(prefersNew, produce, iterations).1, elapsed(iterations))
    requires iterations < ms.maxIterations
    ensures iterations >= ms.minIterations
  {
  }

  /** When no later solution is preferred to the first one, the first run sets the
      best for good and every later run adds one to the counter. */
  lemma {:induction false} NoImprovementCounter<S>(prefersNew: (S, S) -> bool, produce: nat -> S, k: nat)
    requires k > 0
    requires forall i: nat | 0 < i < k :: !prefersNew(produce(0), produce(i))
    ensures StateAfter(prefersNew, produce, k) == (Some(produce(0)), k - 1)
    decreases k
  {
    StateAfterStep(prefersNew, produce, k - 1);
    if k > 1 {
      NoImprovementCounter(prefersNew, produce, k - 1);
    }
  }

  /** The default constructor's time limit, one thousand days, fits in a `long`
      without saturating. */
  lemma ThousandDaysInNanos()
    ensures ToNanos(Days, 1_000) == 86_400_000_000_000_000
  {
  }
}
