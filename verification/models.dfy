/** The models the sampler can be run on: anything with a dimension, a name
    per dimension and a log-density with gradient (`CpuLogpFunc` plus the
    `Model` trait's `parameters`). `Logp` evaluates the regression as
    written, with the likelihood's gradient only; `LogpCorrected` evaluates
    it with the gradient of its whole log-density. */
module Models {
  import opened Results
  import Regression
  import MvNormal

  datatype Model =
    | RegressionModel(regression: Regression.Regression)
    | MvNormalModel(mv: MvNormal.MvNormal)

  /** `CpuLogpFunc::dim`. */
  function Dim(m: Model): (r: nat)
    ensures m.RegressionModel? ==> r == 3
    ensures m.MvNormalModel? ==> r == m.mv.dims
  {
    match m
    case RegressionModel(reg) => Regression.Dim(reg)
    case MvNormalModel(mv) => MvNormal.Dim(mv)
  }

  /** `Model::parameters`. */
  function Parameters(m: Model): (r: seq<string>)
    ensures m.RegressionModel? ==> r == ["alpha", "beta", "sigma"]
    ensures m.MvNormalModel? ==> r == m.mv.parameters
  {
    match m
    case RegressionModel(reg) => Regression.Parameters(reg)
    case MvNormalModel(mv) => MvNormal.Parameters(mv)
  }

  /** There is one parameter name per dimension for the regression; for the
      multivariate normal exactly when the stored names match `dims`. */
  lemma ParametersMatchDim(m: Model)
    ensures m.RegressionModel? ==> |Parameters(m)| == Dim(m)
    ensures m.MvNormalModel? ==> (|Parameters(m)| == Dim(m) <==> |m.mv.parameters| == m.mv.dims)
  {
  }

  /** The error a log-density evaluation may report (the multivariate
      normal's error type has no values). */
  datatype ModelError = RegressionFailure(cause: Regression.RegressionError)

  /** `LogpError::is_recoverable`. */
  function IsRecoverable(e: ModelError): (r: bool)
    ensures r <==> Regression.IsRecoverable(e.cause)
  {
    Regression.IsRecoverable(e.cause)
  }

  datatype Evaluation = Evaluation(logp: Result<real, ModelError>, grad: seq<real>)

  /** A regression evaluation as an evaluation of the model. */
  function FromRegression(e: Regression.Evaluation): (r: Evaluation)
    ensures r.grad == e.grad && r.logp.Ok? == e.logp.Ok?
    ensures e.logp.Ok? ==> r.logp.value == e.logp.value
    ensures e.logp.Err? ==> r.logp.error.cause == e.logp.error
  {
    var logp := if e.logp.Ok? then Ok(e.logp.value) else Err(RegressionFailure(e.logp.error));
    Evaluation(logp, e.grad)
  }

  /** `CpuLogpFunc::logp` of either model, as written. */
  function Logp(m: Model, ln: real -> real, position: seq<real>, grad: seq<real>): (r: Outcome<Evaluation>)
    requires |grad| >= Dim(m)
    requires m.RegressionModel? ==> |position| >= Dim(m)
    ensures m.RegressionModel? ==> r.Returned?
    ensures r.Returned? ==> |r.value.grad| == |grad|
    ensures r.Returned? ==> forall i :: Dim(m) <= i < |grad| ==> r.value.grad[i] == grad[i]
    ensures r.Returned? && r.value.logp.Err? ==> IsRecoverable(r.value.logp.error) && r.value.grad == grad
    ensures r.Returned? && r.value.logp.Err? <==>
      m.RegressionModel? && position[Regression.Sigma] <= 0.0
    ensures r.Panicked? <==>
      m.MvNormalModel? && (|position| != m.mv.dims || MvNormal.HasShortObservation(m.mv))
  {
    match m
    case RegressionModel(reg) => Returned(FromRegression(Regression.Logp(reg, ln, position, grad)))
    case MvNormalModel(mv) =>
      match MvNormal.Logp(mv, position, grad)
      case Panicked(msg) => Panicked(msg)
      case Returned(e) => Returned(Evaluation(Ok(e.logp), e.grad))
  }

  /** `logp` with the regression's gradient corrected to the gradient of
      its whole log-density; the multivariate normal is unchanged. */
  function LogpCorrected(m: Model, ln: real -> real, position: seq<real>, grad: seq<real>): (r: Outcome<Evaluation>)
    requires |grad| >= Dim(m)
    requires m.RegressionModel? ==> |position| >= Dim(m)
    ensures m.RegressionModel? ==> r.Returned?
    ensures r.Returned? ==> |r.value.grad| == |grad|
    ensures r.Returned? ==> forall i :: Dim(m) <= i < |grad| ==> r.value.grad[i] == grad[i]
    ensures r.Returned? && r.value.logp.Err? ==> IsRecoverable(r.value.logp.error) && r.value.grad == grad
    ensures r.Returned? && r.value.logp.Err? <==>
      m.RegressionModel? && position[Regression.Sigma] <= 0.0
    ensures r.Panicked? <==>
      m.MvNormalModel? && (|position| != m.mv.dims || MvNormal.HasShortObservation(m.mv))
    ensures m.MvNormalModel? ==> r == Logp(m, ln, position, grad)
  {
    match m
    case RegressionModel(reg) => Returned(FromRegression(Regression.LogpCorrected(reg, ln, position, grad)))
    case MvNormalModel(_) => Logp(m, ln, position, grad)
  }

  /** The log-density `logp` reports, where it reports one. */
  function Density(m: Model, ln: real -> real, position: seq<real>): real
    requires m.RegressionModel? ==> |position| >= 3 && position[Regression.Sigma] > 0.0
  {
    match m
    case RegressionModel(reg) =>
      Regression.LogDensity(reg, ln, position[Regression.Alpha], position[Regression.Beta], position[Regression.Sigma])
    case MvNormalModel(mv) => MvNormal.LogDensity(mv.observed, position)
  }

  /** The derivative a coordinate's prior contributes to the log-density:
      `-v/100` along `alpha` and `beta` of the regression, nothing for the
      multivariate normal. */
  function PriorTerm(m: Model, position: seq<real>, d: nat): real
    requires d < |position|
  {
    if m.RegressionModel? then Regression.PriorGradient(position[d]) else 0.0
  }

  /** The central difference quotient of `Density` along coordinate `d`. */
  function Quotient(m: Model, ln: real -> real, position: seq<real>, d: nat, h: real): real
    requires d < |position| && h != 0.0
    requires m.RegressionModel? ==> |position| >= 3 && position[Regression.Sigma] > 0.0 && d != Regression.Sigma
  {
    (Density(m, ln, position[d := position[d] + h]) - Density(m, ln, position[d := position[d] - h])) / (2.0 * h)
  }

  /** Whenever `logp` reports a value, it is `Density`; every gradient
      entry along a mean coordinate of the multivariate normal is the
      central difference quotient of `Density` for any step `h`, while
      along `alpha` and `beta` of the regression it falls short of that
      quotient by exactly the prior's derivative. */
  lemma GradientIsCentralDifference(m: Model, ln: real -> real, position: seq<real>, grad: seq<real>, d: nat, h: real)
    requires |grad| >= Dim(m)
    requires m.RegressionModel? ==> |position| >= Dim(m)
    requires h != 0.0
    requires m.RegressionModel? ==> d == Regression.Alpha || d == Regression.Beta
    requires m.MvNormalModel? ==> d < m.mv.dims
    ensures var r := Logp(m, ln, position, grad);
      r.Returned? && r.value.logp.Ok? ==>
        && (m.RegressionModel? ==> position[Regression.Sigma] > 0.0)
        && d < |position|
        && r.value.logp.value == Density(m, ln, position)
        && Quotient(m, ln, position, d, h) == r.value.grad[d] + PriorTerm(m, position, d)
        && (m.RegressionModel? && position[d] != 0.0 ==> Quotient(m, ln, position, d, h) != r.value.grad[d])
  {
    var r := Logp(m, ln, position, grad);
    if r.Returned? && r.value.logp.Ok? {
      match m
      case RegressionModel(reg) =>
        Regression.AsWrittenGradientMissesPrior(reg, ln, position, grad, h);
        ShiftedRegression(position, d, h);
      case MvNormalModel(mv) =>
        MvNormal.GradientIsCentralDifference(mv, position, grad, d, h);
    }
  }

  /** Whenever the corrected `logp` reports a value, it is `Density`, and
      every gradient entry along a mean coordinate of the multivariate
      normal and along `alpha` and `beta` of the regression is the central
      difference quotient of `Density`, for any step `h`. */
  lemma CorrectedGradientIsCentralDifference(m: Model, ln: real -> real, position: seq<real>, grad: seq<real>, d: nat, h: real)
    requires |grad| >= Dim(m)
    requires m.RegressionModel? ==> |position| >= Dim(m)
    requires h != 0.0
    requires m.RegressionModel? ==> d == Regression.Alpha || d == Regression.Beta
    requires m.MvNormalModel? ==> d < m.mv.dims
    ensures var r := LogpCorrected(m, ln, position, grad);
      r.Returned? && r.value.logp.Ok? ==>
        && (m.RegressionModel? ==> position[Regression.Sigma] > 0.0)
        && d < |position|
        && r.value.logp.value == Density(m, ln, position)
        && Quotient(m, ln, position, d, h) == r.value.grad[d]
  {
    var r := LogpCorrected(m, ln, position, grad);
    if r.Returned? && r.value.logp.Ok? {
      match m
      case RegressionModel(reg) =>
        Regression.CorrectedGradientIsCentralDifference(reg, ln, position, grad, h);
        ShiftedRegression(position, d, h);
      case MvNormalModel(mv) =>
        MvNormal.GradientIsCentralDifference(mv, position, grad, d, h);
    }
  }

  /** Shifting `alpha` or `beta` by `h` moves only that coordinate among
      the regression's three. */
  lemma ShiftedRegression(position: seq<real>, d: nat, h: real)
    requires |position| >= 3 && (d == Regression.Alpha || d == Regression.Beta)
    ensures var a, b, s := position[0], position[1], position[2];
      d == 0 ==> position[d := position[d] + h][..3] == [a + h, b, s] && position[d := position[d] - h][..3] == [a - h, b, s]
    ensures var a, b, s := position[0], position[1], position[2];
      d == 1 ==> position[d := position[d] + h][..3] == [a, b + h, s] && position[d := position[d] - h][..3] == [a, b - h, s]
  {
  }
}
