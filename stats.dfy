/** The numpy reductions the services apply to lists of measurements. */
module Stats {

  /** The sum of `xs`, adding from the front. */
  function Sum(xs: seq<real>): real
  {
    if xs == [] then 0.0 else Sum(xs[..|xs| - 1]) + xs[|xs| - 1]
  }

  /** `np.mean` of a non-empty list. */
  function Mean(xs: seq<real>): real
    requires xs != []
  {
    Sum(xs) / |xs| as real
  }

  /** The distances between consecutive elements of `xs`, the later one first: `[dist(xs[1], xs[0]), dist(xs[2], xs[1]), ...]`. */
  function Steps<T>(xs: seq<T>, dist: (T, T) -> real): (d: seq<real>)
    ensures |d| == if |xs| < 2 then 0 else |xs| - 1
    ensures forall i :: 0 <= i < |d| ==> d[i] == dist(xs[i + 1], xs[i])
  {
    if |xs| < 2 then []
    else Steps(xs[..|xs| - 1], dist) + [dist(xs[|xs| - 1], xs[|xs| - 2])]
  }

  /** A sum of non-negative values is non-negative. */
  lemma {:induction false} SumNonNegative(xs: seq<real>)
    ensures (forall i :: 0 <= i < |xs| ==> xs[i] >= 0.0) ==> Sum(xs) >= 0.0
  {
    if xs != [] {
      var init := xs[..|xs| - 1];
      assert forall i :: 0 <= i < |init| ==> init[i] == xs[i];
      SumNonNegative(init);
    }
  }

  /** A mean of non-negative values is non-negative. */
  lemma MeanNonNegative(xs: seq<real>)
    requires xs != []
    ensures (forall i :: 0 <= i < |xs| ==> xs[i] >= 0.0) ==> Mean(xs) >= 0.0
  {
    if forall i :: 0 <= i < |xs| ==> xs[i] >= 0.0 {
      SumNonNegative(xs);
      DivNonNegative(Sum(xs), |xs| as real);
    }
  }

  /** The steps under a non-negative distance are all non-negative. */
  lemma StepsNonNegative<T>(xs: seq<T>, dist: (T, T) -> real)
    requires forall p, q :: dist(p, q) >= 0.0
    ensures forall i :: 0 <= i < |Steps(xs, dist)| ==> Steps(xs, dist)[i] >= 0.0
  {
    var d := Steps(xs, dist);
    forall i | 0 <= i < |d| ensures d[i] >= 0.0 {
      assert d[i] == dist(xs[i + 1], xs[i]);
    }
  }

  lemma DivNonNegative(a: real, b: real)
    requires a >= 0.0 && b > 0.0
    ensures a / b >= 0.0
  {
  }
}
