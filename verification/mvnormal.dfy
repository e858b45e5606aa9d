/** The multivariate normal model with identity covariance: observations
    `obs_i` in `dims` dimensions, unknown mean `mu`, and
    `logp(mu) = -1/2 sum_i ||obs_i - mu||^2 / SIGMA^2` with `SIGMA = 1`.
    The two copies of this model in the program (`MultivariateNormalModel`
    and the older `Model`) share `dim` and `logp` and this module; only
    `MultivariateNormalModel` has `parameters`. */
module MvNormal {
  import opened Results

  /** The error type has no variants: `logp` never fails. */
  datatype MvNormal = MvNormal(observed: seq<seq<real>>, dims: nat, parameters: seq<string>)

  /** The (fixed) standard deviation of every coordinate. */
  const Sigma: real := 1.0

  /** `dim`: the stored dimension. */
  function Dim(m: MvNormal): (r: nat)
    ensures r == m.dims
  {
    m.dims
  }

  /** `parameters`: the stored names, unchanged. */
  function Parameters(m: MvNormal): (r: seq<string>)
    ensures r == m.parameters
  {
    m.parameters
  }

  /** `||o - p||^2` over the coordinates `zip` visits: the shorter of the two. */
  function NormSq(o: seq<real>, p: seq<real>): (r: real)
    ensures r >= 0.0
    decreases |o|
  {
    if |o| == 0 || |p| == 0 then 0.0
    else
      var d := o[0] - p[0];
      SquareNonNegative(d);
      d * d + NormSq(o[1..], p[1..])
  }

  lemma SquareNonNegative(d: real)
    ensures d * d >= 0.0
  {
  }

  /** The log-density: `sum_i -NormSq(obs_i, mu) / 2 / SIGMA^2`. */
  function LogDensity(obs: seq<seq<real>>, mu: seq<real>): real
  {
    if |obs| == 0 then 0.0
    else ObservationTerm(obs[0], mu) + LogDensity(obs[1..], mu)
  }

  /** One observation's term `-NormSq(o, mu) / 2 / SIGMA^2`. */
  function ObservationTerm(o: seq<real>, mu: seq<real>): real
  {
    -NormSq(o, mu) / 2.0 / (Sigma * Sigma)
  }

  /** Each observation's term is at most 0. */
  lemma ObservationTermNonPositive(o: seq<real>, mu: seq<real>)
    ensures ObservationTerm(o, mu) <= 0.0
  {
    assert Sigma * Sigma == 1.0;
  }

  /** The log-density is at most 0, and 0 with no observations. */
  lemma {:induction false} LogDensityNonPositive(obs: seq<seq<real>>, mu: seq<real>)
    ensures LogDensity(obs, mu) <= 0.0
    ensures |obs| == 0 ==> LogDensity(obs, mu) == 0.0
  {
    if |obs| > 0 {
      ObservationTermNonPositive(obs[0], mu);
      LogDensityNonPositive(obs[1..], mu);
    }
  }

  /** Every observation reaches coordinate `d`. */
  predicate Covers(obs: seq<seq<real>>, d: nat)
  {
    forall i :: 0 <= i < |obs| ==> d < |obs[i]|
  }

  /** One observation's deviation `v - mu_d` from the mean. */
  function Deviation(v: real, mud: real): real
  {
    v - mud
  }

  /** `sum_i (obs_i[d] - mu_d)`, the sum the gradient loop forms. */
  function Deviations(obs: seq<seq<real>>, d: nat, mud: real): real
    requires Covers(obs, d)
  {
    if |obs| == 0 then 0.0 else Deviation(obs[0][d], mud) + Deviations(obs[1..], d, mud)
  }

  /** `sum_i obs_i[d]`. */
  function CoordinateSum(obs: seq<seq<real>>, d: nat): real
    requires Covers(obs, d)
  {
    if |obs| == 0 then 0.0 else obs[0][d] + CoordinateSum(obs[1..], d)
  }

  /** The sum of deviations is the coordinate sum minus `n mu_d`. */
  lemma {:induction false} DeviationsClosedForm(obs: seq<seq<real>>, d: nat, mud: real)
    requires Covers(obs, d)
    ensures Deviations(obs, d, mud) == CoordinateSum(obs, d) - |obs| as real * mud
  {
    if |obs| > 0 {
      DeviationsClosedForm(obs[1..], d, mud);
      assert |obs| as real * mud == mud + (|obs| - 1) as real * mud;
    }
  }

  /** What `logp` returns and the gradient buffer after the call. */
  datatype Evaluation = Evaluation(logp: real, grad: seq<real>)

  /** Some observation is too short to be indexed at every coordinate. */
  predicate HasShortObservation(m: MvNormal)
  {
    exists i :: 0 <= i < |m.observed| && |m.observed[i]| < m.dims
  }

  /** `logp(position, grad)`: asserts `position.len() == dims`, writes
      `grad[d] = sum_i (obs_i[d] - position[d]) / SIGMA^2` for every
      `d < dims` (indexing `obs_i[d]` panics when an observation is shorter
      than `dims`) and returns the log-density. */
  function Logp(m: MvNormal, position: seq<real>, grad: seq<real>): (r: Outcome<Evaluation>)
    requires |grad| >= m.dims
    ensures |position| != m.dims ==> r == Panicked(AssertEqFailed)
    ensures |position| == m.dims && HasShortObservation(m) ==> r == Panicked(IndexOutOfBounds)
    ensures r.Returned? <==> |position| == m.dims && !HasShortObservation(m)
    ensures r.Returned? ==>
      && r.value.logp == LogDensity(m.observed, position)
      && r.value.logp <= 0.0
      && |r.value.grad| == |grad|
      && (forall d :: m.dims <= d < |grad| ==> r.value.grad[d] == grad[d])
      && (forall d :: 0 <= d < m.dims ==>
            Covers(m.observed, d) && r.value.grad[d] == CoordinateSum(m.observed, d) - |m.observed| as real * position[d])
  {
    if |position| != m.dims then Panicked(AssertEqFailed)
    else if HasShortObservation(m) then Panicked(IndexOutOfBounds)
    else
      var g := seq(|grad|, d requires 0 <= d < |grad| =>
        if d < m.dims then Deviations(m.observed, d, position[d]) / (Sigma * Sigma) else grad[d]);
      assert forall d :: 0 <= d < m.dims ==>
            Covers(m.observed, d) && g[d] == CoordinateSum(m.observed, d) - |m.observed| as real * position[d] by {
        forall d | 0 <= d < m.dims
          ensures Covers(m.observed, d)
          ensures g[d] == CoordinateSum(m.observed, d) - |m.observed| as real * position[d]
        {
          DeviationsClosedForm(m.observed, d, position[d]);
        }
      }
      LogDensityNonPositive(m.observed, position);
      Returned(Evaluation(LogDensity(m.observed, position), g))
  }

  /** `logp` never reports an error: whenever it returns, with no
      observations the gradient is zero and the log-density 0. */
  lemma NoObservations(m: MvNormal, position: seq<real>, grad: seq<real>)
    requires |grad| >= m.dims && |position| == m.dims && |m.observed| == 0
    ensures Logp(m, position, grad).Returned?
    ensures Logp(m, position, grad).value.logp == 0.0
    ensures forall d :: 0 <= d < m.dims ==> Logp(m, position, grad).value.grad[d] == 0.0
  {
  }

  /** At the per-coordinate mean of the observations the gradient vanishes. */
  lemma GradientZeroAtMean(m: MvNormal, position: seq<real>, grad: seq<real>)
    requires |grad| >= m.dims && |position| == m.dims && !HasShortObservation(m)
    requires |m.observed| > 0
    requires forall d :: 0 <= d < m.dims ==>
      Covers(m.observed, d) && position[d] == CoordinateSum(m.observed, d) / |m.observed| as real
    ensures forall d :: 0 <= d < m.dims ==> Logp(m, position, grad).value.grad[d] == 0.0
  {
    var n := |m.observed| as real;
    forall d | 0 <= d < m.dims
      ensures Logp(m, position, grad).value.grad[d] == 0.0
    {
      assert n * (CoordinateSum(m.observed, d) / n) == CoordinateSum(m.observed, d);
    }
  }

  // ---------------------------------------------------------------------------
  // The gradient against the log-density: along each coordinate the
  // log-density is a quadratic, so the central difference quotient is its
  // exact derivative for every step.

  /** Shifting coordinate `d` of `p` by `+h` and by `-h` changes `NormSq` by
      `-4 h (o_d - p_d)`. */
  lemma {:induction false} NormSqShift(o: seq<real>, p: seq<real>, d: nat, h: real)
    requires d < |o| && d < |p|
    ensures NormSq(o, p[d := p[d] + h]) - NormSq(o, p[d := p[d] - h]) == -4.0 * h * (o[d] - p[d])
    decreases d
  {
    var pu, pl := p[d := p[d] + h], p[d := p[d] - h];
    if d == 0 {
      assert pu[1..] == p[1..] && pl[1..] == p[1..];
      var e := o[0] - p[0];
      assert (e - h) * (e - h) - (e + h) * (e + h) == -4.0 * h * e;
      assert o[0] - pu[0] == (o[0] - p[0]) - h;
      assert o[0] - pl[0] == (o[0] - p[0]) + h;
    } else {
      NormSqShift(o[1..], p[1..], d - 1, h);
      assert pu[1..] == p[1..][d - 1 := p[d] + h];
      assert pl[1..] == p[1..][d - 1 := p[d] - h];
      assert pu[0] == p[0] && pl[0] == p[0];
    }
  }

  /** One observation's share of the change of the log-density. */
  lemma ObservationShift(o: seq<real>, mu: seq<real>, d: nat, h: real, t: real)
    requires d < |o| && d < |mu| && t == Deviation(o[d], mu[d])
    ensures ObservationTerm(o, mu[d := mu[d] + h]) - ObservationTerm(o, mu[d := mu[d] - h]) == 2.0 * h * t
  {
    assert Sigma * Sigma == 1.0;
    NormSqShift(o, mu, d, h);
  }

  /** `sum_i f(obs_i)`. */
  function SumOver(obs: seq<seq<real>>, f: seq<real> -> real): real
  {
    if |obs| == 0 then 0.0 else f(obs[0]) + SumOver(obs[1..], f)
  }

  /** The log-density is the sum of the observations' terms. */
  lemma {:induction false} LogDensityIsSum(obs: seq<seq<real>>, mu: seq<real>, f: seq<real> -> real)
    requires forall o :: f(o) == ObservationTerm(o, mu)
    ensures LogDensity(obs, mu) == SumOver(obs, f)
  {
    if |obs| > 0 {
      LogDensityIsSum(obs[1..], mu, f);
    }
  }

  /** If each observation's term changes by `2 h (o_d - mu_d)`, the sum
      changes by `2 h sum_i (obs_i[d] - mu_d)`. */
  lemma {:induction false} SumShift(obs: seq<seq<real>>, f: seq<real> -> real, g: seq<real> -> real, d: nat, mud: real, h: real)
    requires Covers(obs, d)
    requires forall i :: 0 <= i < |obs| ==> f(obs[i]) - g(obs[i]) == 2.0 * h * Deviation(obs[i][d], mud)
    ensures SumOver(obs, f) - SumOver(obs, g) == 2.0 * h * Deviations(obs, d, mud)
  {
    if |obs| > 0 {
      assert f(obs[0]) - g(obs[0]) == 2.0 * h * Deviation(obs[0][d], mud);
      assert forall i :: 0 <= i < |obs[1..]| ==> obs[1..][i] == obs[i + 1];
      SumShift(obs[1..], f, g, d, mud, h);
      var t, r := Deviation(obs[0][d], mud), Deviations(obs[1..], d, mud);
      assert 2.0 * h * Deviations(obs, d, mud) == 2.0 * h * t + 2.0 * h * r;
    }
  }

  /** Every observation's term changes by `2 h (o_d - mu_d)`, for `f` and
      `g` the terms at the shifted means. */
  lemma TermShifts(obs: seq<seq<real>>, mu: seq<real>, d: nat, h: real, f: seq<real> -> real, g: seq<real> -> real)
    requires d < |mu| && Covers(obs, d)
    requires forall o :: f(o) == ObservationTerm(o, mu[d := mu[d] + h])
    requires forall o :: g(o) == ObservationTerm(o, mu[d := mu[d] - h])
    ensures forall i :: 0 <= i < |obs| ==> f(obs[i]) - g(obs[i]) == 2.0 * h * Deviation(obs[i][d], mu[d])
  {
    forall i | 0 <= i < |obs|
      ensures f(obs[i]) - g(obs[i]) == 2.0 * h * Deviation(obs[i][d], mu[d])
    {
      ObservationShift(obs[i], mu, d, h, Deviation(obs[i][d], mu[d]));
    }
  }

  /** The log-density changes by `2 h sum_i (obs_i[d] - mu_d)`. */
  lemma LogDensityShift(obs: seq<seq<real>>, mu: seq<real>, d: nat, h: real)
    requires d < |mu| && Covers(obs, d)
    ensures LogDensity(obs, mu[d := mu[d] + h]) - LogDensity(obs, mu[d := mu[d] - h])
         == 2.0 * h * Deviations(obs, d, mu[d])
  {
    var mu1, mu2 := mu[d := mu[d] + h], mu[d := mu[d] - h];
    var f, g := o => ObservationTerm(o, mu1), o => ObservationTerm(o, mu2);
    TermShifts(obs, mu, d, h, f, g);
    SumShift(obs, f, g, d, mu[d], h);
    LogDensityIsSum(obs, mu1, f);
    LogDensityIsSum(obs, mu2, g);
  }

  /** Dividing `2 h v` by `2 h` gives back `v`. */
  lemma Quotient(diff: real, h: real, u: real, v: real)
    requires h != 0.0 && diff == 2.0 * h * v && u == v
    ensures diff / (2.0 * h) == u
  {
  }

  /** The central difference quotient of the log-density along every
      coordinate `d < dims` equals `grad[d]`, for every step `h`. */
  lemma GradientIsCentralDifference(m: MvNormal, position: seq<real>, grad: seq<real>, d: nat, h: real)
    requires |grad| >= m.dims && |position| == m.dims && !HasShortObservation(m)
    requires d < m.dims && h != 0.0
    ensures Logp(m, position, grad).Returned?
    ensures (LogDensity(m.observed, position[d := position[d] + h])
              - LogDensity(m.observed, position[d := position[d] - h])) / (2.0 * h)
         == Logp(m, position, grad).value.grad[d]
  {
    GradientIsDeviations(m, position, grad, d);
    LogDensityShift(m.observed, position, d, h);
    Quotient(LogDensity(m.observed, position[d := position[d] + h])
              - LogDensity(m.observed, position[d := position[d] - h]), h,
      Deviations(m.observed, d, position[d]), Deviations(m.observed, d, position[d]));
  }

  /** `grad[d]` is the sum of the deviations along `d`. */
  lemma GradientIsDeviations(m: MvNormal, position: seq<real>, grad: seq<real>, d: nat)
    requires |grad| >= m.dims && |position| == m.dims && !HasShortObservation(m)
    requires d < m.dims
    ensures Covers(m.observed, d)
    ensures Logp(m, position, grad).Returned?
    ensures Logp(m, position, grad).value.grad[d] == Deviations(m.observed, d, position[d])
  {
    DeviationsClosedForm(m.observed, d, position[d]);
  }
}
