/** The "best so far" fold shared by the multistart loop and the result container.
    A solution's `getBetterSolution(other)` returns either itself or `other`; the
    model abstracts the comparison into `prefersNew(current, candidate)`, which
    holds exactly when the candidate is returned. */
module BetterSolution {
  import opened Wrappers

  /** `current.getBetterSolution(candidate)`. */
  function Better<S>(prefersNew: (S, S) -> bool, current: S, candidate: S): (r: S)
    ensures r == current || r == candidate
    ensures prefersNew(current, candidate) ==> r == candidate
    ensures !prefersNew(current, candidate) ==> r == current
  {
    if prefersNew(current, candidate) then candidate else current
  }

  /** The left fold both loops compute: nothing for no solutions, the first solution
      to start with, then `getBetterSolution` with each later one in order. */
  function BestOf<S>(prefersNew: (S, S) -> bool, xs: seq<S>): (r: Option<S>)
    ensures r.None? <==> |xs| == 0
    ensures r.Some? ==> r.value in xs
    decreases |xs|
  {
    if |xs| == 0 then None
    else
      match BestOf(prefersNew, xs[..|xs| - 1])
      case None => Some(xs[|xs| - 1])
      case Some(b) => Some(Better(prefersNew, b, xs[|xs| - 1]))
  }

  /** One more solution extends the fold by one step. */
  lemma BestOfSnoc<S>(prefersNew: (S, S) -> bool, xs: seq<S>, x: S)
    ensures BestOf(prefersNew, xs + [x]) ==
              Some(if |xs| == 0 then x else Better(prefersNew, BestOf(prefersNew, xs).value, x))
  {
    assert (xs + [x])[..|xs|] == xs;
  }

  /** When the comparison is "strictly lower score wins", the fold returns a solution
      of minimum score, and the earliest one among equals. */
  lemma {:induction false} BestOfMinimizes<S>(prefersNew: (S, S) -> bool, score: S -> real, xs: seq<S>)
    returns (j: nat)
    requires forall a, b :: prefersNew(a, b) <==> score(b) < score(a)
    requires |xs| > 0
    ensures j < |xs| && BestOf(prefersNew, xs) == Some(xs[j])
    ensures forall i | 0 <= i < |xs| :: score(xs[j]) <= score(xs[i])
    ensures forall i | 0 <= i < j :: score(xs[j]) < score(xs[i])
    decreases |xs|
  {
    var n := |xs| - 1;
    var init := xs[..n];
    assert xs == init + [xs[n]];
    BestOfSnoc(prefersNew, init, xs[n]);
    if n == 0 {
      j := 0;
    } else {
      var k := BestOfMinimizes(prefersNew, score, init);
      if score(xs[n]) < score(xs[k]) {
        j := n;
        forall i | 0 <= i < |xs| ensures score(xs[j]) <= score(xs[i]) {
          if i < n { assert xs[i] == init[i]; }
        }
        forall i | 0 <= i < j ensures score(xs[j]) < score(xs[i]) {
          assert xs[i] == init[i];
        }
      } else {
        j := k;
        forall i | 0 <= i < |xs| ensures score(xs[j]) <= score(xs[i]) {
          if i < n { assert xs[i] == init[i]; }
        }
        forall i | 0 <= i < j ensures score(xs[j]) < score(xs[i]) {
          assert xs[i] == init[i];
        }
      }
    }
  }
}
