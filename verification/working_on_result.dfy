/** The result of running one algorithm on one instance several times: an
    append-only list of solutions, each stamped with its execution time, the
    instance they all belong to, and aggregates over them. A solution's instance
    is read through `instanceOf`; instance identity is value equality on `I`. */
module WorkingOnResult {
  import opened Wrappers
  import opened JavaLang
  import opened BetterSolution

  const NANOS_PER_MILLI: int := 1_000_000

  /** A solution after `setExecutionTimeInNanos(nanos)`. */
  datatype Stamped<S> = Stamped(solution: S, executionTimeInNanos: Int64)

  /** The container; `instance` is `None` until the first solution arrives. */
  datatype Results<S, I> = Results(
    solutions: seq<Stamped<S>>,
    instance: Option<I>,
    algorithmName: string,
    instanceName: string)

  /** The constructor: `new ArrayList<>(nSolutions)` rejects a negative capacity. */
  function Create<S, I>(nSolutions: Int32, algorithmName: string, instanceName: string)
    : (r: Result<Results<S, I>, Exception>)
    ensures r.Failure? <==> nSolutions < 0
    ensures r.Failure? ==> r.error.IllegalArgument?
    ensures r.Success? ==> r.value.solutions == [] && r.value.instance.None?
    ensures r.Success? ==> r.value.algorithmName == algorithmName && r.value.instanceName == instanceName
  {
    if nSolutions < 0 then Failure(IllegalArgument("Illegal Capacity: " + IntToString(nSolutions)))
    else Success(Results([], None, algorithmName, instanceName))
  }

  /** What `addSolution` leaves behind: the new state, and the `AssertionError`
      it throws, if any, after the state has changed. */
  datatype AddOutcome<S, I> = AddOutcome(results: Results<S, I>, error: Option<Exception>)

  /** `addSolution(s, nanos)`: stamps and appends the solution first; then the first
      solution fixes the instance, and a later one from another instance raises an
      assertion failure. Java compares instances by reference, so a value of `I`
      stands for one instance object. */
  function AddSolution<S, I(==)>(w: Results<S, I>, s: S, nanos: Int64, instanceOf: S -> I): (o: AddOutcome<S, I>)
    ensures o.results.solutions == w.solutions + [Stamped(s, nanos)]
    ensures o.results.algorithmName == w.algorithmName && o.results.instanceName == w.instanceName
    ensures w.instance.None? ==> o.results.instance == Some(instanceOf(s)) && o.error.None?
    ensures w.instance.Some? ==> o.results.instance == w.instance
    ensures w.instance.Some? ==> (o.error.Some? <==> w.instance.value != instanceOf(s))
    ensures o.error.Some? ==> o.error.value.AssertionFailed?
  {
    var appended := w.(solutions := w.solutions + [Stamped(s, nanos)]);
    match w.instance
    case None => AddOutcome(appended.(instance := Some(instanceOf(s))), None)
    case Some(inst) =>
      if inst != instanceOf(s) then AddOutcome(appended, Some(AssertionFailed("Instance mismatch")))
      else AddOutcome(appended, None)
  }

  /** The container's invariant: an instance is fixed exactly when there is a
      solution, and every solution belongs to it. */
  ghost predicate Consistent<S, I>(w: Results<S, I>, instanceOf: S -> I) {
    && (w.instance.None? <==> |w.solutions| == 0)
    && (w.instance.Some? ==> forall i | 0 <= i < |w.solutions| :: instanceOf(w.solutions[i].solution) == w.instance.value)
  }

  lemma CreateConsistent<S, I>(nSolutions: Int32, algorithmName: string, instanceName: string, instanceOf: S -> I)
    requires nSolutions >= 0
    ensures Consistent(Create<S, I>(nSolutions, algorithmName, instanceName).value, instanceOf)
  {
  }

  /** Adding to a consistent container keeps it consistent exactly when no assertion
      failure is raised: a mismatching solution is appended before the check. */
  lemma AddSolutionConsistency<S, I>(w: Results<S, I>, s: S, nanos: Int64, instanceOf: S -> I)
    requires Consistent(w, instanceOf)
    ensures AddSolution(w, s, nanos, instanceOf).error.None? <==> Consistent(AddSolution(w, s, nanos, instanceOf).results, instanceOf)
  {
    var o := AddSolution(w, s, nanos, instanceOf);
    var n := |w.solutions|;
    assert o.results.solutions[n].solution == s;
    forall i | 0 <= i < n ensures o.results.solutions[i] == w.solutions[i] { }
  }

  /** `getSolutions()`: the solutions in insertion order. */
  function GetSolutions<S, I>(w: Results<S, I>): (r: seq<S>)
    ensures |r| == |w.solutions|
    ensures forall i | 0 <= i < |r| :: r[i] == w.solutions[i].solution
  {
    seq(|w.solutions|, i requires 0 <= i < |w.solutions| => w.solutions[i].solution)
  }

  /** Every added solution shows up last in `getSolutions`, whether or not the
      instance check fails. */
  lemma AddThenGetSolutions<S, I>(w: Results<S, I>, s: S, nanos: Int64, instanceOf: S -> I)
    ensures GetSolutions(AddSolution(w, s, nanos, instanceOf).results) == GetSolutions(w) + [s]
  {
  }

  // ---------------------------------------------------------------------------
  // Time aggregates

  /** The exact sum of the stamped execution times. */
  function ExactNanos<S>(xs: seq<Stamped<S>>): int {
    if |xs| == 0 then 0 else ExactNanos(xs[..|xs| - 1]) + xs[|xs| - 1].executionTimeInNanos
  }

  /** `long totalTime` after the accumulation loop: the exact sum wrapped to 64 bits. */
  method SumNanos<S>(xs: seq<Stamped<S>>) returns (total: Int64)
    ensures total == WrapLong(ExactNanos(xs))
  {
    total := 0;
    var i := 0;
    while i < |xs|
      invariant 0 <= i <= |xs|
      invariant total == WrapLong(ExactNanos(xs[..i]))
    {
      assert xs[..i + 1][..i] == xs[..i];
      WrapLongAdd(ExactNanos(xs[..i]), xs[i].executionTimeInNanos);
      total := WrapLong(total + xs[i].executionTimeInNanos);
      i := i + 1;
    }
    assert xs[..|xs|] == xs;
  }

  /** `getTotalTime()`: the summed nanoseconds in whole milliseconds, rounded toward zero. */
  method GetTotalTime<S, I>(w: Results<S, I>) returns (millis: Int64)
    ensures millis == Div(WrapLong(ExactNanos(w.solutions)), NANOS_PER_MILLI)
    ensures 0 <= ExactNanos(w.solutions) <= LONG_MAX ==>
              millis * NANOS_PER_MILLI <= ExactNanos(w.solutions) < (millis + 1) * NANOS_PER_MILLI
  {
    var total := SumNanos(w.solutions);
    millis := Div(total, NANOS_PER_MILLI);
  }

  /** `getAverageExecTime()`: the summed nanoseconds divided by the number of
      solutions, then by a million, both rounding toward zero; an empty container
      divides by zero. */
  method GetAverageExecTime<S, I>(w: Results<S, I>) returns (r: Result<Int64, Exception>)
    ensures r.Failure? <==> |w.solutions| == 0
    ensures r.Failure? ==> r.error == Arithmetic
    ensures r.Success? ==> r.value == Div(Div(WrapLong(ExactNanos(w.solutions)), |w.solutions|), NANOS_PER_MILLI)
    ensures r.Success? && 0 <= ExactNanos(w.solutions) <= LONG_MAX ==>
              r.value == ExactNanos(w.solutions) / (|w.solutions| * NANOS_PER_MILLI)
  {
    var total := SumNanos(w.solutions);
    if |w.solutions| == 0 {
      return Failure(Arithmetic);
    }
    var perSolution := Div(total, |w.solutions|);
    r := Success(Div(perSolution, NANOS_PER_MILLI));
    if 0 <= ExactNanos(w.solutions) <= LONG_MAX {
      AverageWithoutOverflow(ExactNanos(w.solutions), |w.solutions|);
    }
  }

  lemma AverageWithoutOverflow(exact: nat, n: nat)
    requires n > 0 && exact <= LONG_MAX
    ensures Div(Div(WrapLong(exact), n), NANOS_PER_MILLI) == exact / (n * NANOS_PER_MILLI)
  {
    assert WrapLong(exact) == exact;
    NestedDiv(exact, n, NANOS_PER_MILLI);
  }

  lemma NestedDiv(a: nat, n: nat, m: nat)
    requires n > 0 && m > 0
    ensures Div(Div(a, n), m) == a / (n * m)
  {
    DivDiv(a, n, m);
    NestedDivision(a, n, m);
  }

  lemma DivDiv(a: nat, n: nat, m: nat)
    requires n > 0 && m > 0
    ensures Div(Div(a, n), m) == (a / n) / m
  {
    var q := a / n;
    assert 0 <= q by { assert q * n <= a; }
    assert Div(a, n) == q;
    assert Div(q, m) == q / m;
  }

  /** Without overflow, what `getAverageExecTime` returns, times the number of
      solutions, never exceeds what `getTotalTime` returns. */
  lemma AverageTimesCountAtMostTotal<S, I>(w: Results<S, I>)
    requires |w.solutions| > 0 && 0 <= ExactNanos(w.solutions) <= LONG_MAX
    ensures 0 <= Div(Div(WrapLong(ExactNanos(w.solutions)), |w.solutions|), NANOS_PER_MILLI) * |w.solutions|
                <= Div(WrapLong(ExactNanos(w.solutions)), NANOS_PER_MILLI)
  {
    var exact: nat := ExactNanos(w.solutions);
    AverageWithoutOverflow(exact, |w.solutions|);
    assert Div(WrapLong(exact), NANOS_PER_MILLI) == exact / NANOS_PER_MILLI;
    QuotientTimesCount(exact, |w.solutions|, NANOS_PER_MILLI);
  }

  lemma QuotientTimesCount(a: nat, n: nat, m: nat)
    requires n > 0 && m > 0
    ensures 0 <= (a / (n * m)) * n <= a / m
  {
    var average := a / (n * m);
    var total := a / m;
    assert average * (n * m) <= a;
    assert average * (n * m) == (average * n) * m;
    assert a < (total + 1) * m;
    MulCancelLt(average * n, total + 1, m);
  }

  /** Two successive divisions of a natural number round like one division by the
      product. */
  lemma NestedDivision(a: nat, n: nat, m: nat)
    requires n > 0 && m > 0
    ensures (a / n) / m == a / (n * m)
  {
    var q := a / (n * m);
    var r := a % (n * m);
    assert a == q * (n * m) + r && 0 <= r < n * m;
    var r1 := r / n;
    var r0 := r % n;
    assert r == r1 * n + r0;
    assert a == (q * m + r1) * n + r0;
    DivUnique(a, n, q * m + r1, r0);
    assert r1 * n <= r;
    assert r1 * n < m * n;
    MulCancelLt(r1, m, n);
    DivUnique(q * m + r1, m, q, r1);
  }

  lemma DivUnique(a: int, d: int, q: int, r: int)
    requires d > 0 && a == q * d + r && 0 <= r < d
    ensures a / d == q
  {
    var q2 := a / d;
    var r2 := a % d;
    assert a == q2 * d + r2;
    assert (q - q2) * d == r2 - r;
    if q - q2 >= 1 {
      MulAtLeast(q - q2, d);
    } else if q2 - q >= 1 {
      MulAtLeast(q2 - q, d);
    }
  }

  lemma MulAtLeast(x: int, d: int)
    requires x >= 1 && d > 0
    ensures x * d >= d
  {
  }

  lemma MulCancelLt(a: int, b: int, n: int)
    requires n > 0 && a * n < b * n
    ensures a < b
  {
  }

  /** Wrapping after every addition gives the same value as wrapping once at the end. */
  lemma WrapLongAdd(x: int, y: int)
    ensures WrapLong(WrapLong(x) + y) == WrapLong(x + y)
  {
    var M := 0x1_0000_0000_0000_0000;
    var z := x - LONG_MIN;
    ModAdd(z, y, M);
    assert WrapLong(x) + y - LONG_MIN == z % M + y;
  }

  lemma ModAdd(x: int, y: int, M: int)
    requires M > 0
    ensures (x % M + y) % M == (x + y) % M
  {
    var q := x / M;
    assert x == q * M + x % M;
    ModShift(x % M + y, q, M);
    assert x % M + y + q * M == x + y;
  }

  lemma ModShift(z: int, q: int, M: int)
    requires M > 0
    ensures (z + q * M) % M == z % M
  {
    var r := z % M;
    var d := z / M;
    assert z == d * M + r;
    assert z + q * M == (d + q) * M + r;
    DivUnique(z + q * M, M, d + q, r);
  }

  // ---------------------------------------------------------------------------
  // Best solution

  /** `getBestSolution()`: nothing for an empty container, otherwise the fold of
      `getBetterSolution` in insertion order. */
  method GetBestSolution<S, I>(w: Results<S, I>, prefersNew: (S, S) -> bool) returns (chosen: Option<S>)
    ensures chosen == BestOf(prefersNew, GetSolutions(w))
    ensures chosen.None? <==> |w.solutions| == 0
    ensures chosen.Some? ==> exists i | 0 <= i < |w.solutions| :: w.solutions[i].solution == chosen.value
  {
    var solutions := GetSolutions(w);
    chosen := None;
    var i := 0;
    while i < |solutions|
      invariant 0 <= i <= |solutions|
      invariant chosen == BestOf(prefersNew, solutions[..i])
    {
      BestOfSnoc(prefersNew, solutions[..i], solutions[i]);
      assert solutions[..i + 1] == solutions[..i] + [solutions[i]];
      if chosen.None? {
        chosen := Some(solutions[i]);
      } else {
        chosen := Some(Better(prefersNew, chosen.value, solutions[i]));
      }
      i := i + 1;
    }
    assert solutions[..i] == solutions;
  }
}
