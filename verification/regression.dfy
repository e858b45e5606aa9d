/** The Bayesian linear regression `y = alpha + beta * x + noise`,
    `noise ~ Normal(0, sigma)`, with `Normal(0, 10)` priors on `alpha` and
    `beta` and a flat prior on `sigma > 0`. Arithmetic is over `real`, an
    idealisation of `f64`; the natural logarithm inside the normal density is
    a parameter `ln` (the only place the log-density needs it), so that the
    gradient can be related to the log-density without any calculus. */
module Regression {
  import opened Results

  /** The only error: a non-positive `sigma`. */
  datatype RegressionError = NegativeSigma

  /** `LogpError::is_recoverable`: the sampler may reject the proposal and
      carry on. */
  function IsRecoverable(e: RegressionError): (r: bool)
    ensures e == NegativeSigma ==> r
  {
    true
  }

  /** The observed data: abscissae `x` and responses `y`. */
  datatype Regression = Regression(x: seq<real>, y: seq<real>)

  /** The message of the failed `assert_eq!` in `new`. */
  const DimensionMismatch: string := AssertEqFailed + ": Dimension mismatch"

  /** `Regression::new`: panics unless `x` and `y` have the same length. */
  function New(x: seq<real>, y: seq<real>): (r: Outcome<Regression>)
    ensures r.Returned? <==> |x| == |y|
    ensures r.Returned? ==> r.value.x == x && r.value.y == y
    ensures r.Panicked? ==> r.message == DimensionMismatch
  {
    if |x| == |y| then Returned(Regression(x, y)) else Panicked(DimensionMismatch)
  }

  /** Indices of the three parameters in a position. */
  const Alpha: nat := 0
  const Beta: nat := 1
  const Sigma: nat := 2

  /** `dim`: the model always has three parameters. */
  function Dim(m: Regression): (r: nat)
    ensures r == 3
  {
    3
  }

  /** `parameters`: one name per dimension, in position order. */
  function Parameters(m: Regression): (r: seq<string>)
    ensures |r| == Dim(m)
    ensures r[Alpha] == "alpha" && r[Beta] == "beta" && r[Sigma] == "sigma"
  {
    ["alpha", "beta", "sigma"]
  }

  /** `std::f64::consts::PI`, as the shortest decimal that denotes it. */
  const Pi: real := 3.141592653589793

  /** Standard deviation of the priors on `alpha` and `beta`. */
  const PriorSd: real := 10.0

  /** `log_pdf_normal(v, mu, sd)`: `-0.5 ln(2 pi sd^2) - 0.5 ((v - mu) / sd)^2`. */
  function LogPdfNormal(ln: real -> real, v: real, mu: real, sd: real): real
    requires sd != 0.0
  {
    var z := (v - mu) / sd;
    -0.5 * ln(2.0 * Pi * (sd * sd)) + -0.5 * (z * z)
  }

  /** The normal density peaks at its mean, and only there. */
  lemma LogPdfNormalPeak(ln: real -> real, v: real, mu: real, sd: real)
    requires sd != 0.0
    ensures LogPdfNormal(ln, v, mu, sd) <= LogPdfNormal(ln, mu, mu, sd)
    ensures LogPdfNormal(ln, v, mu, sd) == LogPdfNormal(ln, mu, mu, sd) <==> v == mu
  {
    var z := (v - mu) / sd;
    assert z * z >= 0.0;
    assert z == 0.0 <==> v == mu;
  }

  /** The normal density is symmetric about its mean. */
  lemma LogPdfNormalSymmetric(ln: real -> real, d: real, mu: real, sd: real)
    requires sd != 0.0
    ensures LogPdfNormal(ln, mu + d, mu, sd) == LogPdfNormal(ln, mu - d, mu, sd)
  {
    var z := d / sd;
    assert (mu + d - mu) / sd == z;
    assert (mu - d - mu) / sd == -z;
  }

  /** The number of (x, y) pairs the iterator `zip` visits. */
  function Pairs(x: seq<real>, y: seq<real>): nat
  {
    if |x| <= |y| then |x| else |y|
  }

  /** `f64::powi(s, 2)`. */
  function Pow2(s: real): real
  {
    s * s
  }

  /** `f64::powi(s, 3)`. */
  function Pow3(s: real): real
  {
    Pow2(s) * s
  }

  /** Positivity of the powers of a positive `sigma`. */
  lemma PowersPositive(s: real)
    requires s > 0.0
    ensures Pow2(s) > 0.0 && Pow3(s) > 0.0
  {
    MulPositive(s, s, Pow2(s));
    MulPositive(Pow2(s), s, Pow3(s));
  }

  lemma MulPositive(p: real, q: real, r: real)
    requires p > 0.0 && q > 0.0 && r == p * q
    ensures r > 0.0
  {
  }

  /** The residual `y - mu` of one observation, `mu = alpha + beta * x`. */
  function Residual(x: real, y: real, a: real, b: real): real
  {
    y - (a + b * x)
  }

  /** The log-likelihood `sum_i log N(y_i; a + b x_i, s)` over the zipped data. */
  function LogLikelihood(ln: real -> real, x: seq<real>, y: seq<real>, a: real, b: real, s: real): real
    requires s > 0.0
    decreases |x|
  {
    if |x| == 0 || |y| == 0 then 0.0
    else LogPdfNormal(ln, y[0], a + b * x[0], s) + LogLikelihood(ln, x[1..], y[1..], a, b, s)
  }

  /** `d_alpha` as the source sums it: `sum_i (y_i - mu_i) / s2`, where
      `s2` is `sigma.powi(2)`. */
  function DAlpha(x: seq<real>, y: seq<real>, a: real, b: real, s2: real): real
    requires s2 != 0.0
    decreases |x|
  {
    if |x| == 0 || |y| == 0 then 0.0
    else Residual(x[0], y[0], a, b) / s2 + DAlpha(x[1..], y[1..], a, b, s2)
  }

  /** `d_beta` as the source sums it: `sum_i (y_i - mu_i) x_i / s2`. */
  function DBeta(x: seq<real>, y: seq<real>, a: real, b: real, s2: real): real
    requires s2 != 0.0
    decreases |x|
  {
    if |x| == 0 || |y| == 0 then 0.0
    else Residual(x[0], y[0], a, b) * x[0] / s2 + DBeta(x[1..], y[1..], a, b, s2)
  }

  /** `d_sigma` as the source sums it: `sum_i ((y_i - mu_i)^2 / s3 - 1 / s)`,
      where `s3` is `sigma.powi(3)`. */
  function DSigma(x: seq<real>, y: seq<real>, a: real, b: real, s: real, s3: real): real
    requires s != 0.0 && s3 != 0.0
    decreases |x|
  {
    if |x| == 0 || |y| == 0 then 0.0
    else
      var d := Residual(x[0], y[0], a, b);
      d * d / s3 - 1.0 / s + DSigma(x[1..], y[1..], a, b, s, s3)
  }

  /** `sum_i r_i` over the zipped data. */
  function SumResiduals(x: seq<real>, y: seq<real>, a: real, b: real): real
    decreases |x|
  {
    if |x| == 0 || |y| == 0 then 0.0
    else Residual(x[0], y[0], a, b) + SumResiduals(x[1..], y[1..], a, b)
  }

  /** `sum_i r_i x_i` over the zipped data. */
  function SumWeightedResiduals(x: seq<real>, y: seq<real>, a: real, b: real): real
    decreases |x|
  {
    if |x| == 0 || |y| == 0 then 0.0
    else Residual(x[0], y[0], a, b) * x[0] + SumWeightedResiduals(x[1..], y[1..], a, b)
  }

  /** `sum_i r_i^2` over the zipped data. */
  function SumSquaredResiduals(x: seq<real>, y: seq<real>, a: real, b: real): real
    decreases |x|
  {
    if |x| == 0 || |y| == 0 then 0.0
    else
      var d := Residual(x[0], y[0], a, b);
      d * d + SumSquaredResiduals(x[1..], y[1..], a, b)
  }

  /** The log-density value of `logp`: likelihood plus the two priors; the
      flat prior on `sigma` adds 0. */
  function LogDensity(m: Regression, ln: real -> real, a: real, b: real, s: real): real
    requires s > 0.0
  {
    var logpSigma := 0.0;
    LogLikelihood(ln, m.x, m.y, a, b, s) + LogPdfNormal(ln, a, 0.0, PriorSd)
      + LogPdfNormal(ln, b, 0.0, PriorSd) + logpSigma
  }

  /** What `logp` returns together with the caller's gradient buffer after
      the call. */
  datatype Evaluation = Evaluation(logp: Result<real, RegressionError>, grad: seq<real>)

  /** `logp(position, grad)`, as written: rejects `sigma <= 0` before touching
      `grad`; otherwise returns the log-density and writes the three partial
      derivatives of the LIKELIHOOD (the priors' derivatives are missing). */
  function Logp(m: Regression, ln: real -> real, position: seq<real>, grad: seq<real>): (r: Evaluation)
    requires |position| >= Dim(m) && |grad| >= Dim(m)
    ensures r.logp.Err? <==> position[Sigma] <= 0.0
    ensures r.logp.Err? ==> r.logp.error == NegativeSigma && r.grad == grad
    ensures |r.grad| == |grad|
    ensures forall i :: Dim(m) <= i < |grad| ==> r.grad[i] == grad[i]
    ensures r.logp.Ok? ==>
      var a, b, s := position[Alpha], position[Beta], position[Sigma];
      && Pow2(s) > 0.0 && Pow3(s) > 0.0
      && r.logp.value == LogDensity(m, ln, a, b, s)
      && r.grad[Alpha] == SumResiduals(m.x, m.y, a, b) / Pow2(s)
      && r.grad[Beta] == SumWeightedResiduals(m.x, m.y, a, b) / Pow2(s)
      && r.grad[Sigma] == SumSquaredResiduals(m.x, m.y, a, b) / Pow3(s) - Pairs(m.x, m.y) as real / s
  {
    var a, b, s := position[Alpha], position[Beta], position[Sigma];
    if s <= 0.0 then
      Evaluation(Err(NegativeSigma), grad)
    else
      PowersPositive(s);
      var s2, s3 := Pow2(s), Pow3(s);
      DAlphaClosedForm(m.x, m.y, a, b, s2);
      DBetaClosedForm(m.x, m.y, a, b, s2);
      DSigmaClosedForm(m.x, m.y, a, b, s, s3);
      var dAlpha := DAlpha(m.x, m.y, a, b, s2);
      var dBeta := DBeta(m.x, m.y, a, b, s2);
      var dSigma := DSigma(m.x, m.y, a, b, s, s3);
      Evaluation(Ok(LogDensity(m, ln, a, b, s)), grad[Alpha := dAlpha][Beta := dBeta][Sigma := dSigma])
  }

  /** The derivative of `log N(v; 0, PriorSd)` with respect to `v`. */
  function PriorGradient(v: real): real
  {
    -v / (PriorSd * PriorSd)
  }

  /** `logp` with the gradient of the WHOLE log-density: the likelihood's
      partial derivatives plus the priors' derivatives for `alpha` and
      `beta` (the flat prior on `sigma` has none). */
  function LogpCorrected(m: Regression, ln: real -> real, position: seq<real>, grad: seq<real>): (r: Evaluation)
    requires |position| >= Dim(m) && |grad| >= Dim(m)
    ensures r.logp.Err? <==> position[Sigma] <= 0.0
    ensures r.logp.Err? ==> r.logp.error == NegativeSigma && r.grad == grad
    ensures |r.grad| == |grad|
    ensures forall i :: Dim(m) <= i < |grad| ==> r.grad[i] == grad[i]
    ensures r.logp.Ok? ==>
      var a, b, s := position[Alpha], position[Beta], position[Sigma];
      && Pow2(s) > 0.0 && Pow3(s) > 0.0
      && r.logp.value == LogDensity(m, ln, a, b, s)
      && r.grad[Alpha] == SumResiduals(m.x, m.y, a, b) / Pow2(s) - a / 100.0
      && r.grad[Beta] == SumWeightedResiduals(m.x, m.y, a, b) / Pow2(s) - b / 100.0
      && r.grad[Sigma] == SumSquaredResiduals(m.x, m.y, a, b) / Pow3(s) - Pairs(m.x, m.y) as real / s
  {
    var e := Logp(m, ln, position, grad);
    if e.logp.Err? then e
    else
      var a, b := position[Alpha], position[Beta];
      Evaluation(e.logp, e.grad[Alpha := e.grad[Alpha] + PriorGradient(a)][Beta := e.grad[Beta] + PriorGradient(b)])
  }

  // ---------------------------------------------------------------------------
  // The closed forms of the three sums.

  lemma {:induction false} DAlphaClosedForm(x: seq<real>, y: seq<real>, a: real, b: real, s2: real)
    requires s2 != 0.0
    ensures DAlpha(x, y, a, b, s2) == SumResiduals(x, y, a, b) / s2
    decreases |x|
  {
    if |x| > 0 && |y| > 0 {
      DAlphaClosedForm(x[1..], y[1..], a, b, s2);
      DivAdd(Residual(x[0], y[0], a, b), SumResiduals(x[1..], y[1..], a, b), s2);
    }
  }

  lemma {:induction false} DBetaClosedForm(x: seq<real>, y: seq<real>, a: real, b: real, s2: real)
    requires s2 != 0.0
    ensures DBeta(x, y, a, b, s2) == SumWeightedResiduals(x, y, a, b) / s2
    decreases |x|
  {
    if |x| > 0 && |y| > 0 {
      DBetaClosedForm(x[1..], y[1..], a, b, s2);
      DivAdd(Residual(x[0], y[0], a, b) * x[0], SumWeightedResiduals(x[1..], y[1..], a, b), s2);
    }
  }

  /** `d_sigma` equals `sum_i r_i^2 / s3 - n / s`, `n` the number of pairs. */
  lemma {:induction false} DSigmaClosedForm(x: seq<real>, y: seq<real>, a: real, b: real, s: real, s3: real)
    requires s != 0.0 && s3 != 0.0
    ensures DSigma(x, y, a, b, s, s3) == SumSquaredResiduals(x, y, a, b) / s3 - Pairs(x, y) as real / s
    decreases |x|
  {
    if |x| > 0 && |y| > 0 {
      DSigmaClosedForm(x[1..], y[1..], a, b, s, s3);
      var d := Residual(x[0], y[0], a, b);
      var rest := SumSquaredResiduals(x[1..], y[1..], a, b);
      var n := Pairs(x[1..], y[1..]) as real;
      assert Pairs(x, y) as real == n + 1.0;
      assert SumSquaredResiduals(x, y, a, b) == d * d + rest;
      assert DSigma(x, y, a, b, s, s3) == d * d / s3 - 1.0 / s + DSigma(x[1..], y[1..], a, b, s, s3);
      assert d * d / s3 - 1.0 / s + (rest / s3 - n / s) == (d * d + rest) / s3 - (n + 1.0) / s by {
        DivAdd(d * d, rest, s3);
        DivAdd(1.0, n, s);
      }
    }
  }

  lemma DivAdd(p: real, q: real, d: real)
    requires d != 0.0
    ensures p / d + q / d == (p + q) / d
  {
  }

  // ---------------------------------------------------------------------------
  // The gradient against the log-density: along `alpha` and `beta` the
  // log-density is a quadratic, so the central difference quotient
  // `(f(v + h) - f(v - h)) / 2h` is its exact derivative for every `h`.

  /** Shifting the mean by `+e` and by `-e` changes `-0.5 z^2` by
      `2 e (v - mu) / s^2`; the normalising term depends on `s` only. */
  lemma LogPdfShift(ln: real -> real, v: real, mu: real, e: real, s: real)
    requires s > 0.0
    ensures Pow2(s) > 0.0
    ensures LogPdfNormal(ln, v, mu + e, s) - LogPdfNormal(ln, v, mu - e, s)
         == 2.0 * e * ((v - mu) / Pow2(s))
  {
    PowersPositive(s);
    var q := 1.0 / s;
    var r := v - mu;
    assert (v - (mu + e)) / s == (r - e) * q;
    assert (v - (mu - e)) / s == (r + e) * q;
    assert ((r - e) * q) * ((r - e) * q) - ((r + e) * q) * ((r + e) * q) == -4.0 * e * r * (q * q);
    assert q * q == 1.0 / Pow2(s);
    assert r * (1.0 / Pow2(s)) == r / Pow2(s);
  }

  lemma {:induction false} LikelihoodShiftAlpha(ln: real -> real, x: seq<real>, y: seq<real>, a: real, b: real, s: real, h: real)
    requires s > 0.0
    ensures Pow2(s) > 0.0
    ensures LogLikelihood(ln, x, y, a + h, b, s) - LogLikelihood(ln, x, y, a - h, b, s)
         == 2.0 * h * DAlpha(x, y, a, b, Pow2(s))
    decreases |x|
  {
    PowersPositive(s);
    if |x| > 0 && |y| > 0 {
      LikelihoodShiftAlpha(ln, x[1..], y[1..], a, b, s, h);
      var mu := a + b * x[0];
      assert (a + h) + b * x[0] == mu + h;
      assert (a - h) + b * x[0] == mu - h;
      LogPdfShift(ln, y[0], mu, h, s);
      Distribute(h, Residual(x[0], y[0], a, b) / Pow2(s), DAlpha(x[1..], y[1..], a, b, Pow2(s)));
    }
  }

  lemma {:induction false} LikelihoodShiftBeta(ln: real -> real, x: seq<real>, y: seq<real>, a: real, b: real, s: real, h: real)
    requires s > 0.0
    ensures Pow2(s) > 0.0
    ensures LogLikelihood(ln, x, y, a, b + h, s) - LogLikelihood(ln, x, y, a, b - h, s)
         == 2.0 * h * DBeta(x, y, a, b, Pow2(s))
    decreases |x|
  {
    PowersPositive(s);
    if |x| > 0 && |y| > 0 {
      LikelihoodShiftBeta(ln, x[1..], y[1..], a, b, s, h);
      var t := Residual(x[0], y[0], a, b) * x[0] / Pow2(s);
      BetaTerm(ln, x[0], y[0], a, b, s, h, t);
      var p1, p2 := LogPdfNormal(ln, y[0], a + (b + h) * x[0], s), LogPdfNormal(ln, y[0], a + (b - h) * x[0], s);
      assert p1 - p2 == 2.0 * h * t;
      Combine(p1, p2, LogLikelihood(ln, x[1..], y[1..], a, b + h, s), LogLikelihood(ln, x[1..], y[1..], a, b - h, s),
        h, t, DBeta(x[1..], y[1..], a, b, Pow2(s)));
    }
  }

  /** One observation's share of the change along `beta`. */
  lemma BetaTerm(ln: real -> real, xi: real, yi: real, a: real, b: real, s: real, h: real, t: real)
    requires s > 0.0 && Pow2(s) > 0.0 && t == Residual(xi, yi, a, b) * xi / Pow2(s)
    ensures LogPdfNormal(ln, yi, a + (b + h) * xi, s) - LogPdfNormal(ln, yi, a + (b - h) * xi, s)
         == 2.0 * h * t
  {
    PowersPositive(s);
    var mu := a + b * xi;
    var e := h * xi;
    assert a + (b + h) * xi == mu + e;
    assert a + (b - h) * xi == mu - e;
    LogPdfShift(ln, yi, mu, e, s);
    ScaleTerm(h, xi, Residual(xi, yi, a, b), Pow2(s));
  }

  lemma ScaleTerm(h: real, k: real, r: real, d: real)
    requires d != 0.0
    ensures 2.0 * (h * k) * (r / d) == 2.0 * h * (r * k / d)
  {
    var q := 1.0 / d;
    assert r / d == r * q;
    assert r * k / d == (r * k) * q;
  }

  /** The prior's log-density changes by `2 h PriorGradient(v)`. */
  lemma PriorShift(ln: real -> real, v: real, h: real)
    ensures LogPdfNormal(ln, v + h, 0.0, PriorSd) - LogPdfNormal(ln, v - h, 0.0, PriorSd)
         == 2.0 * h * PriorGradient(v)
  {
    assert LogPdfNormal(ln, v + h, 0.0, PriorSd) == LogPdfNormal(ln, v, 0.0 - h, PriorSd);
    assert LogPdfNormal(ln, v - h, 0.0, PriorSd) == LogPdfNormal(ln, v, 0.0 + h, PriorSd);
    LogPdfShift(ln, v, 0.0, -h, PriorSd);
  }

  /** Differences of sums add up term by term. */
  lemma Combine(p1: real, p2: real, q1: real, q2: real, h: real, t: real, rest: real)
    requires p1 - p2 == 2.0 * h * t
    requires q1 - q2 == 2.0 * h * rest
    ensures (p1 + q1) - (p2 + q2) == 2.0 * h * (t + rest)
  {
    Distribute(h, t, rest);
  }

  lemma Distribute(h: real, t: real, rest: real)
    ensures 2.0 * h * (t + rest) == 2.0 * h * t + 2.0 * h * rest
  {
  }

  lemma Cancel(g: real, h: real)
    requires h != 0.0
    ensures (2.0 * h * g) / (2.0 * h) == g
  {
  }

  /** Along `alpha`, the log-density changes by `2 h` times the corrected
      `alpha` gradient `g`. */
  lemma AlphaShift(m: Regression, ln: real -> real, a: real, b: real, s: real, h: real, g: real)
    requires s > 0.0 && Pow2(s) > 0.0
    requires g == SumResiduals(m.x, m.y, a, b) / Pow2(s) + PriorGradient(a)
    ensures LogDensity(m, ln, a + h, b, s) - LogDensity(m, ln, a - h, b, s) == 2.0 * h * g
  {
    LikelihoodShiftAlpha(ln, m.x, m.y, a, b, s, h);
    PriorShift(ln, a, h);
    DAlphaClosedForm(m.x, m.y, a, b, Pow2(s));
    Distribute(h, DAlpha(m.x, m.y, a, b, Pow2(s)), PriorGradient(a));
  }

  /** Along `beta`, the log-density changes by `2 h` times the corrected
      `beta` gradient `g`. */
  lemma BetaShift(m: Regression, ln: real -> real, a: real, b: real, s: real, h: real, g: real)
    requires s > 0.0 && Pow2(s) > 0.0
    requires g == SumWeightedResiduals(m.x, m.y, a, b) / Pow2(s) + PriorGradient(b)
    ensures LogDensity(m, ln, a, b + h, s) - LogDensity(m, ln, a, b - h, s) == 2.0 * h * g
  {
    LikelihoodShiftBeta(ln, m.x, m.y, a, b, s, h);
    PriorShift(ln, b, h);
    DBetaClosedForm(m.x, m.y, a, b, Pow2(s));
    Distribute(h, DBeta(m.x, m.y, a, b, Pow2(s)), PriorGradient(b));
  }

  /** The prior's derivative is `-v / 100`. */
  lemma PriorGradientValue(v: real)
    ensures PriorGradient(v) == -v / 100.0
  {
  }

  /** The central difference quotient along `alpha` is the corrected
      `alpha` gradient `g`. */
  lemma CentralDifferenceAlpha(m: Regression, ln: real -> real, a: real, b: real, s: real, h: real, g: real)
    requires s > 0.0 && Pow2(s) > 0.0 && h != 0.0
    requires g == SumResiduals(m.x, m.y, a, b) / Pow2(s) - a / 100.0
    ensures (LogDensity(m, ln, a + h, b, s) - LogDensity(m, ln, a - h, b, s)) / (2.0 * h) == g
  {
    PowersPositive(s);
    PriorGradientValue(a);
    AlphaShift(m, ln, a, b, s, h, g);
    Cancel(g, h);
  }

  /** The central difference quotient along `beta` is the corrected
      `beta` gradient `g`. */
  lemma CentralDifferenceBeta(m: Regression, ln: real -> real, a: real, b: real, s: real, h: real, g: real)
    requires s > 0.0 && Pow2(s) > 0.0 && h != 0.0
    requires g == SumWeightedResiduals(m.x, m.y, a, b) / Pow2(s) - b / 100.0
    ensures (LogDensity(m, ln, a, b + h, s) - LogDensity(m, ln, a, b - h, s)) / (2.0 * h) == g
  {
    PowersPositive(s);
    PriorGradientValue(b);
    BetaShift(m, ln, a, b, s, h, g);
    Cancel(g, h);
  }

  /** The central difference quotient of the log-density along `alpha` and
      along `beta` equals the corrected gradient, for every step `h`. */
  lemma CorrectedGradientIsCentralDifference(m: Regression, ln: real -> real, position: seq<real>, grad: seq<real>, h: real)
    requires |position| >= Dim(m) && |grad| >= Dim(m)
    requires position[Sigma] > 0.0 && h != 0.0
    ensures var a, b, s := position[Alpha], position[Beta], position[Sigma];
      var g := LogpCorrected(m, ln, position, grad).grad;
      && (LogDensity(m, ln, a + h, b, s) - LogDensity(m, ln, a - h, b, s)) / (2.0 * h) == g[Alpha]
      && (LogDensity(m, ln, a, b + h, s) - LogDensity(m, ln, a, b - h, s)) / (2.0 * h) == g[Beta]
  {
    var a, b, s := position[Alpha], position[Beta], position[Sigma];
    var g := LogpCorrected(m, ln, position, grad).grad;
    CentralDifferenceAlpha(m, ln, a, b, s, h, g[Alpha]);
    CentralDifferenceBeta(m, ln, a, b, s, h, g[Beta]);
  }

  /** As written, the `alpha` and `beta` entries of the gradient differ from
      the central difference quotient of the returned log-density by the
      prior's derivative; with no data and `alpha = 1, beta = 0, sigma = 1`
      the gradient is 0 while the log-density falls by 0.01 per unit of
      `alpha`. */
  lemma AsWrittenGradientMissesPrior(m: Regression, ln: real -> real, position: seq<real>, grad: seq<real>, h: real)
    requires |position| >= Dim(m) && |grad| >= Dim(m)
    requires position[Sigma] > 0.0 && h != 0.0
    ensures var a, b, s := position[Alpha], position[Beta], position[Sigma];
      var g := Logp(m, ln, position, grad).grad;
      && (LogDensity(m, ln, a + h, b, s) - LogDensity(m, ln, a - h, b, s)) / (2.0 * h) == g[Alpha] - a / 100.0
      && (LogDensity(m, ln, a, b + h, s) - LogDensity(m, ln, a, b - h, s)) / (2.0 * h) == g[Beta] - b / 100.0
    ensures m == Regression([], []) && position[..3] == [1.0, 0.0, 1.0] ==>
      && Logp(m, ln, position, grad).grad[Alpha] == 0.0
      && (LogDensity(m, ln, 1.0 + h, 0.0, 1.0) - LogDensity(m, ln, 1.0 - h, 0.0, 1.0)) / (2.0 * h) == -0.01
  {
    CorrectedGradientIsCentralDifference(m, ln, position, grad, h);
    if m == Regression([], []) && position[..3] == [1.0, 0.0, 1.0] {
      assert position[Alpha] == 1.0 && position[Beta] == 0.0 && position[Sigma] == 1.0;
    }
  }

  /** The flat prior on `sigma`: changing only `sigma` changes the
      log-density by exactly the change of the likelihood. */
  lemma SigmaPriorIsFlat(m: Regression, ln: real -> real, a: real, b: real, s1: real, s2: real)
    requires s1 > 0.0 && s2 > 0.0
    ensures LogDensity(m, ln, a, b, s1) - LogDensity(m, ln, a, b, s2)
         == LogLikelihood(ln, m.x, m.y, a, b, s1) - LogLikelihood(ln, m.x, m.y, a, b, s2)
  {
  }
}
