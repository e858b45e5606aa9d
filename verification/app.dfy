/** `run_with`: read the `DATE,TMAX` data, centre the dates, fit the
    regression with several NUTS chains and write ten posterior draws as a
    CSV text. The sampler, the square root, the posterior sampling and the
    number formatting are parameters; drawing the chains on a canvas and
    writing the text into the page are not modelled. */
module App {
  import opened Results
  import opened Text
  import opened Csv
  import Regression
  import Models
  import Chain

  const MismatchedColumns: string := "x and y must have the same length"
  const NoObservations: string := "x and y must have at least one element"

  /** `POSTERIOR_SAMPLES`: the number of posterior draws written out. */
  const PosteriorSamples: nat := 10

  /** Column `k` of every row, in row order (`iter().map(|x| x[k])`); the
      first row without an entry `k` panics. */
  function Column(rows: seq<seq<real>>, k: nat): (r: Outcome<seq<real>>)
    ensures r.Returned? <==> forall i :: 0 <= i < |rows| ==> k < |rows[i]|
    ensures r.Returned? ==> |r.value| == |rows|
    ensures r.Returned? ==> forall i :: 0 <= i < |rows| ==> r.value[i] == rows[i][k]
    ensures r.Panicked? ==> r.message == IndexOutOfBounds
  {
    if |rows| == 0 then Returned([])
    else if k >= |rows[0]| then Panicked(IndexOutOfBounds)
    else
      match Column(rows[1..], k)
      case Panicked(msg) => Panicked(msg)
      case Returned(rest) => Returned([rows[0][k]] + rest)
  }

  /** The dates and temperatures of the data: the first two columns of the
      parsed rows, of which there must be at least one. */
  function Observations(input: string, parse: NumberParser): (r: Outcome<(seq<real>, seq<real>)>)
    ensures var t := ParseCsv(input, parse);
      && (t.Panicked? ==> r == Panicked(t.message))
      && (t.Returned? && |t.value.observed| == 0 ==> r == Panicked(NoObservations))
      && (t.Returned? && |t.value.observed| > 0 ==>
            (r.Returned? <==> |t.value.parameters| >= 2)
            && (r.Panicked? ==> r.message == IndexOutOfBounds))
      && (r.Returned? ==>
            && t.Returned?
            && |r.value.0| == |r.value.1| == |t.value.observed| > 0
            && forall i :: 0 <= i < |t.value.observed| ==>
                 r.value.0[i] == t.value.observed[i][0] && r.value.1[i] == t.value.observed[i][1])
    ensures r.Panicked? ==> r.message != MismatchedColumns
  {
    match ParseCsv(input, parse)
    case Panicked(msg) => Panicked(msg)
    case Returned(t) =>
      match Column(t.observed, 0)
      case Panicked(msg) => Panicked(msg)
      case Returned(x) =>
        match Column(t.observed, 1)
        case Panicked(msg) => Panicked(msg)
        case Returned(y) =>
          if |x| != |y| then Panicked(MismatchedColumns)
          else if |x| == 0 then Panicked(NoObservations)
          else Returned((x, y))
  }

  /** `iter().sum()` of `f64` values, in exact arithmetic. */
  function Sum(xs: seq<real>): real
  {
    if |xs| == 0 then 0.0 else xs[0] + Sum(xs[1..])
  }

  /** `sum_i x_i y_i`. */
  function Dot(xs: seq<real>, ys: seq<real>): real
    requires |xs| == |ys|
  {
    if |xs| == 0 then 0.0 else xs[0] * ys[0] + Dot(xs[1..], ys[1..])
  }

  /** The arithmetic mean. */
  function Mean(xs: seq<real>): real
    requires |xs| > 0
  {
    Sum(xs) / |xs| as real
  }

  /** Every value minus `c`. */
  function Shift(xs: seq<real>, c: real): (r: seq<real>)
    ensures |r| == |xs|
    ensures forall i :: 0 <= i < |xs| ==> r[i] + c == xs[i]
  {
    seq(|xs|, i requires 0 <= i < |xs| => xs[i] - c)
  }

  /** Shifting every value by `c` shifts the sum by `|xs| c`. */
  lemma {:induction false} SumShift(xs: seq<real>, c: real)
    ensures Sum(Shift(xs, c)) == Sum(xs) - |xs| as real * c
    decreases |xs|
  {
    if |xs| > 0 {
      SumShift(xs[1..], c);
      var ys := Shift(xs, c);
      assert ys[1..] == Shift(xs[1..], c);
      var n := |xs| as real;
      assert (n - 1.0) * c + c == n * c;
    }
  }

  /** The dates measured from their mean (`x - x0`), which keeps `alpha`
      and `beta` from being strongly correlated. */
  function Centre(xs: seq<real>): (r: seq<real>)
    requires |xs| > 0
    ensures |r| == |xs|
    ensures forall i :: 0 <= i < |xs| ==> r[i] + Mean(xs) == xs[i]
    ensures Sum(r) == 0.0
  {
    CentredSumIsZero(xs);
    Shift(xs, Mean(xs))
  }

  /** Values measured from their mean sum to zero. */
  lemma CentredSumIsZero(xs: seq<real>)
    requires |xs| > 0
    ensures Sum(Shift(xs, Mean(xs))) == 0.0
  {
    SumShift(xs, Mean(xs));
    var n := |xs| as real;
    assert n * (Sum(xs) / n) == Sum(xs);
  }

  /** An `f64` division: a number, an infinity (a non-zero number divided
      by zero) or NaN (zero divided by zero). */
  function DivideF64(num: real, den: real): (r: Float)
    ensures r.Number? <==> den != 0.0
    ensures r.Number? ==> r.value * den == num
    ensures r.NaN? <==> num == 0.0 && den == 0.0
  {
    if den != 0.0 then Number(num / den)
    else if num != 0.0 then Infinity
    else NaN
  }

  /** `guessed_beta` as written: the sum of the responses divided by the sum
      of the (centred) dates. */
  function GuessedBetaAsWritten(x: seq<real>, y: seq<real>): (r: Float)
    ensures r.Number? <==> Sum(x) != 0.0
    ensures r.Number? ==> r.value * Sum(x) == Sum(y)
    ensures r.NaN? <==> Sum(x) == 0.0 && Sum(y) == 0.0
  {
    DivideF64(Sum(y), Sum(x))
  }

  /** The divisor of the written guess is the sum of centred dates, which
      is zero, so the guessed slope is never a number. */
  lemma AsWrittenBetaIsNeverFinite(x: seq<real>, y: seq<real>)
    requires |x| > 0
    ensures !GuessedBetaAsWritten(Centre(x), y).Number?
  {
    CentredSumIsZero(x);
  }

  /** Dates 1 and 3 with temperatures 1 and 1: the centred dates are -1 and
      1, and the guessed slope is `2 / 0`, an infinity. */
  lemma AsWrittenBetaExample()
    ensures GuessedBetaAsWritten(Centre([1.0, 3.0]), [1.0, 1.0]) == Infinity
  {
    var c := Centre([1.0, 3.0]);
    assert Mean([1.0, 3.0]) == 2.0;
    assert c == [-1.0, 1.0];
    assert Sum(c) == 0.0;
    assert Sum([1.0, 1.0]) == 2.0;
  }

  /** The least-squares slope of `y` on centred `x`; zero when the dates
      do not vary. */
  function GuessedBeta(x: seq<real>, y: seq<real>): (r: real)
    requires |x| == |y|
    ensures Dot(x, x) != 0.0 ==> r * Dot(x, x) == Dot(x, y)
    ensures Dot(x, x) == 0.0 ==> r == 0.0
  {
    if Dot(x, x) == 0.0 then 0.0 else Dot(x, y) / Dot(x, x)
  }

  /** `guessed_alpha`: the mean response. */
  function GuessedAlpha(y: seq<real>): (r: real)
    requires |y| > 0
    ensures r * |y| as real == Sum(y)
  {
    Mean(y)
  }

  /** `guessed_sigma`: the square root of the sum of squared residuals of
      the guessed line, divided by the number of observations. */
  function GuessedSigma(x: seq<real>, y: seq<real>, a: real, b: real, sqrt: real -> real): (r: real)
    requires |x| == |y| > 0
    ensures r * |y| as real == sqrt(Regression.SumSquaredResiduals(x, y, a, b))
  {
    sqrt(Regression.SumSquaredResiduals(x, y, a, b)) / |y| as real
  }

  /** Responses on the line `a + b x`. */
  predicate OnLine(x: seq<real>, y: seq<real>, a: real, b: real)
    requires |x| == |y|
  {
    forall i :: 0 <= i < |x| ==> y[i] == a + b * x[i]
  }

  lemma {:induction false} SumOnLine(x: seq<real>, y: seq<real>, a: real, b: real)
    requires |x| == |y| && OnLine(x, y, a, b)
    ensures Sum(y) == |y| as real * a + b * Sum(x)
    decreases |x|
  {
    if |x| > 0 {
      OnLineTail(x, y, a, b);
      SumOnLine(x[1..], y[1..], a, b);
      assert y[0] == a + b * x[0];
      LinearStep(|y| as real, a, b, x[0], Sum(x[1..]));
    }
  }

  lemma OnLineTail(x: seq<real>, y: seq<real>, a: real, b: real)
    requires |x| == |y| > 0 && OnLine(x, y, a, b)
    ensures OnLine(x[1..], y[1..], a, b)
  {
    var xs, ys := x[1..], y[1..];
    forall i | 0 <= i < |xs|
      ensures ys[i] == a + b * xs[i]
    {
      assert ys[i] == y[i + 1] && xs[i] == x[i + 1];
    }
  }

  /** Responses on the line `a + b x` leave no residual. */
  lemma {:induction false} OnLineNoResiduals(x: seq<real>, y: seq<real>, a: real, b: real)
    requires |x| == |y| && OnLine(x, y, a, b)
    ensures Regression.SumSquaredResiduals(x, y, a, b) == 0.0
    decreases |x|
  {
    if |x| > 0 {
      OnLineTail(x, y, a, b);
      OnLineNoResiduals(x[1..], y[1..], a, b);
      assert y[0] == a + b * x[0];
    }
  }

  lemma LinearStep(n: real, a: real, b: real, x0: real, rest: real)
    ensures (a + b * x0) + ((n - 1.0) * a + b * rest) == n * a + b * (x0 + rest)
  {
  }

  lemma {:induction false} DotOnLine(x: seq<real>, y: seq<real>, a: real, b: real)
    requires |x| == |y| && OnLine(x, y, a, b)
    ensures Dot(x, y) == a * Sum(x) + b * Dot(x, x)
    decreases |x|
  {
    if |x| > 0 {
      var xs, ys := x[1..], y[1..];
      OnLineTail(x, y, a, b);
      DotOnLine(xs, ys, a, b);
      assert y[0] == a + b * x[0];
      DotStep(a, b, x[0], y[0], Sum(xs), Dot(xs, xs), Dot(xs, ys));
    }
  }

  lemma DotStep(a: real, b: real, x0: real, y0: real, s: real, dxx: real, dxy: real)
    requires y0 == a + b * x0 && dxy == a * s + b * dxx
    ensures x0 * y0 + dxy == a * (x0 + s) + b * (x0 * x0 + dxx)
  {
  }

  /** The guess recovers any line exactly: for responses on `a + b x` over
      centred dates that vary, the guessed intercept is `a` and the guessed
      slope is `b`. */
  lemma GuessRecoversLine(x: seq<real>, y: seq<real>, a: real, b: real)
    requires |x| == |y| > 0 && Sum(x) == 0.0 && Dot(x, x) != 0.0
    requires OnLine(x, y, a, b)
    ensures GuessedAlpha(y) == a && GuessedBeta(x, y) == b
  {
    LineSums(x, y, a, b);
    GuessFromSums(|y| as real, Sum(y), Dot(x, x), Dot(x, y), a, b);
  }

  /** Over centred dates, the sums of a line's responses and of their
      products with the dates are `n a` and `b sum_i x_i^2`. */
  lemma LineSums(x: seq<real>, y: seq<real>, a: real, b: real)
    requires |x| == |y| && Sum(x) == 0.0
    requires OnLine(x, y, a, b)
    ensures Sum(y) == |y| as real * a
    ensures Dot(x, y) == Dot(x, x) * b
  {
    SumOnLine(x, y, a, b);
    DotOnLine(x, y, a, b);
  }

  lemma GuessFromSums(n: real, sy: real, sxx: real, sxy: real, a: real, b: real)
    requires n > 0.0 && sxx != 0.0
    requires sy == n * a && sxy == sxx * b
    ensures sy / n == a && sxy / sxx == b
  {
  }

  /** `guessed_sigma` as written, for a slope that need not be a number:
      with an infinite slope every residual at a non-zero date is infinite,
      and at a zero date it is `inf * 0`, NaN; a NaN anywhere makes the sum
      and its square root NaN. */
  function GuessedSigmaAsWritten(x: seq<real>, y: seq<real>, a: real, b: Float, sqrt: real -> real): (r: Float)
    requires |x| == |y| > 0
    ensures r.Number? <==> b.Number?
    ensures r.Number? ==> r.value * |y| as real == sqrt(Regression.SumSquaredResiduals(x, y, a, b.value))
    ensures r.NaN? <==> b.NaN? || (b.Infinity? && exists i :: 0 <= i < |x| && x[i] == 0.0)
  {
    match b
    case Number(v) => Number(GuessedSigma(x, y, a, v, sqrt))
    case NaN => NaN
    case Infinity => if 0.0 in x then NaN else Infinity
  }

  /** `initial_position` as written: the guessed intercept, the written
      slope guess and the noise guessed from them. */
  function AsWrittenInitialPosition(x: seq<real>, y: seq<real>, sqrt: real -> real): (r: seq<Float>)
    requires |x| == |y| > 0
    ensures |r| == Regression.Dim(Regression.Regression(x, y))
    ensures r[Regression.Alpha].Number? && r[Regression.Alpha].value * |y| as real == Sum(y)
    ensures r[Regression.Beta].Number? <==> Sum(x) != 0.0
    ensures r[Regression.Beta].Number? ==> r[Regression.Beta].value * Sum(x) == Sum(y)
    ensures r[Regression.Sigma].Number? <==> Sum(x) != 0.0
  {
    var a := GuessedAlpha(y);
    var b := GuessedBetaAsWritten(x, y);
    [Number(a), b, GuessedSigmaAsWritten(x, y, a, b, sqrt)]
  }

  /** Over centred dates, the slope and noise of the written initial
      position are never numbers: both are infinite, or NaN when the
      responses sum to zero or a date equals the mean. */
  lemma AsWrittenStartIsNotFinite(x: seq<real>, y: seq<real>, sqrt: real -> real)
    requires |x| == |y| > 0
    ensures var r := AsWrittenInitialPosition(Centre(x), y, sqrt);
      && r[Regression.Alpha] == Number(Mean(y))
      && !r[Regression.Beta].Number? && !r[Regression.Sigma].Number?
      && (r[Regression.Beta] == Infinity <==> Sum(y) != 0.0)
      && (r[Regression.Sigma] == Infinity <==> Sum(y) != 0.0 && forall i :: 0 <= i < |x| ==> x[i] != Mean(x))
  {
    var c := Centre(x);
    forall i | 0 <= i < |x|
      ensures c[i] == 0.0 <==> x[i] == Mean(x)
    {
    }
  }

  /** Dates 1 and 3 with temperatures 1 and 1 start the chains at
      `alpha = 1` with an infinite slope and an infinite noise. */
  lemma AsWrittenStartExample(sqrt: real -> real)
    ensures AsWrittenInitialPosition(Centre([1.0, 3.0]), [1.0, 1.0], sqrt) == [Number(1.0), Infinity, Infinity]
  {
    var c := Centre([1.0, 3.0]);
    assert Mean([1.0, 3.0]) == 2.0;
    assert c == [-1.0, 1.0];
    AsWrittenBetaExample();
    assert Sum([1.0, 1.0]) == 2.0;
    assert 0.0 !in c;
  }

  /** The initial position with the least-squares slope in place of the
      written guess: the guessed intercept, slope and noise, all numbers. */
  function CorrectedInitialPosition(x: seq<real>, y: seq<real>, sqrt: real -> real): (r: seq<real>)
    requires |x| == |y| > 0
    ensures |r| == Regression.Dim(Regression.Regression(x, y))
    ensures r[Regression.Alpha] == GuessedAlpha(y) && r[Regression.Beta] == GuessedBeta(x, y)
    ensures r[Regression.Sigma] == GuessedSigma(x, y, r[Regression.Alpha], r[Regression.Beta], sqrt)
  {
    var a := GuessedAlpha(y);
    var b := GuessedBeta(x, y);
    [a, b, GuessedSigma(x, y, a, b, sqrt)]
  }

  /** For responses on a line over centred dates that vary, the corrected
      initial position starts the chains at that line's intercept and
      slope, with noise `sqrt(0) / n`. */
  lemma CorrectedStartOnLine(x: seq<real>, y: seq<real>, a: real, b: real, sqrt: real -> real)
    requires |x| == |y| > 0 && Sum(x) == 0.0 && Dot(x, x) != 0.0
    requires OnLine(x, y, a, b)
    ensures var r := CorrectedInitialPosition(x, y, sqrt);
      r[Regression.Alpha] == a && r[Regression.Beta] == b
      && r[Regression.Sigma] * |y| as real == sqrt(0.0)
  {
    GuessRecoversLine(x, y, a, b);
    OnLineNoResiduals(x, y, a, b);
  }

  /** Every parameter has a posterior sequence of at least `n` values. */
  predicate Available(parameters: seq<string>, posterior: map<string, seq<real>>, n: nat)
  {
    forall j :: 0 <= j < |parameters| ==> parameters[j] in posterior && n <= |posterior[parameters[j]]|
  }

  /** One line of the posterior text: draw `i` of every parameter from
      index `from` on; `get(p).unwrap()` panics on a missing parameter,
      `[i]` on a sequence that is too short. */
  function PosteriorLine(parameters: seq<string>, posterior: map<string, seq<real>>, i: nat, from: nat): (r: Outcome<seq<real>>)
    requires from <= |parameters|
    ensures r.Returned? <==>
      forall j :: from <= j < |parameters| ==> parameters[j] in posterior && i < |posterior[parameters[j]]|
    ensures r.Returned? ==> |r.value| == |parameters| - from
    ensures r.Returned? ==> forall j :: from <= j < |parameters| ==> r.value[j - from] == posterior[parameters[j]][i]
    ensures r.Panicked? ==> r.message == UnwrapNone || r.message == IndexOutOfBounds
    ensures (forall j :: from <= j < |parameters| ==> parameters[j] in posterior) && r.Panicked? ==>
      r.message == IndexOutOfBounds
    ensures ((forall j :: from <= j < |parameters| && parameters[j] in posterior ==> i < |posterior[parameters[j]]|)
      && r.Panicked?) ==> r.message == UnwrapNone
    decreases |parameters| - from
  {
    if from == |parameters| then Returned([])
    else
      var p := parameters[from];
      if p !in posterior then Panicked(UnwrapNone)
      else if i >= |posterior[p]| then Panicked(IndexOutOfBounds)
      else
        match PosteriorLine(parameters, posterior, i, from + 1)
        case Panicked(msg) => Panicked(msg)
        case Returned(rest) => Returned([posterior[p][i]] + rest)
  }

  /** Lines `from` to `count - 1` of the posterior text, in order. */
  function PosteriorRows(parameters: seq<string>, posterior: map<string, seq<real>>, from: nat, count: nat)
    : (r: Outcome<seq<seq<real>>>)
    requires from <= count
    ensures r.Returned? <==> from == count || Available(parameters, posterior, count)
    ensures r.Returned? ==> |r.value| == count - from
    ensures r.Returned? ==> forall k :: 0 <= k < |r.value| ==> |r.value[k]| == |parameters|
    ensures r.Returned? ==> forall k, j :: 0 <= k < |r.value| && 0 <= j < |parameters| ==>
      r.value[k][j] == posterior[parameters[j]][from + k]
    ensures r.Panicked? ==> r.message == UnwrapNone || r.message == IndexOutOfBounds
    ensures (forall j :: 0 <= j < |parameters| ==> parameters[j] in posterior) && r.Panicked? ==>
      r.message == IndexOutOfBounds
    decreases count - from
  {
    if from == count then Returned([])
    else
      match PosteriorLine(parameters, posterior, from, 0)
      case Panicked(msg) => Panicked(msg)
      case Returned(line) =>
        match PosteriorRows(parameters, posterior, from + 1, count)
        case Panicked(msg) => Panicked(msg)
        case Returned(rest) => Returned([line] + rest)
  }

  /** The posterior table: row `i` holds draw `i` of every parameter. */
  function PosteriorTable(parameters: seq<string>, posterior: map<string, seq<real>>): (r: seq<seq<real>>)
    requires Available(parameters, posterior, PosteriorSamples)
    ensures |r| == PosteriorSamples
    ensures forall i :: 0 <= i < |r| ==> |r[i]| == |parameters|
  {
    seq(PosteriorSamples, i requires 0 <= i < PosteriorSamples =>
      seq(|parameters|, j requires 0 <= j < |parameters| => posterior[parameters[j]][i]))
  }

  /** The posterior text: the parameter names, then ten lines of draws. */
  function PosteriorText(parameters: seq<string>, posterior: map<string, seq<real>>, format: NumberFormatter)
    : (r: Outcome<string>)
    ensures r.Returned? <==> Available(parameters, posterior, PosteriorSamples)
    ensures r.Returned? ==> r.value == WriteCsv(parameters, PosteriorTable(parameters, posterior), format)
    ensures r.Panicked? ==> r.message == UnwrapNone || r.message == IndexOutOfBounds
    ensures (forall j :: 0 <= j < |parameters| ==> parameters[j] in posterior) && r.Panicked? ==>
      r.message == IndexOutOfBounds
  {
    match PosteriorRows(parameters, posterior, 0, PosteriorSamples)
    case Panicked(msg) => Panicked(msg)
    case Returned(rows) =>
      assert rows == PosteriorTable(parameters, posterior) by {
        var t := PosteriorTable(parameters, posterior);
        forall i | 0 <= i < PosteriorSamples
          ensures rows[i] == t[i]
        {
        }
      }
      Returned(WriteCsv(parameters, rows, format))
  }

  /** A parameter missing from the posterior panics with the `unwrap` on
      `None` when every parameter before it has at least one draw. */
  lemma MissingParameterPanics(parameters: seq<string>, posterior: map<string, seq<real>>, format: NumberFormatter, m: nat)
    requires m < |parameters| && parameters[m] !in posterior
    requires forall j :: 0 <= j < m ==> parameters[j] in posterior && 1 <= |posterior[parameters[j]]|
    ensures PosteriorText(parameters, posterior, format) == Panicked(UnwrapNone)
  {
    FirstLineMissing(parameters, posterior, 0, m);
  }

  lemma {:induction false} FirstLineMissing(parameters: seq<string>, posterior: map<string, seq<real>>, from: nat, m: nat)
    requires from <= m < |parameters| && parameters[m] !in posterior
    requires forall j :: from <= j < m ==> parameters[j] in posterior && 1 <= |posterior[parameters[j]]|
    ensures PosteriorLine(parameters, posterior, 0, from) == Panicked(UnwrapNone)
    decreases m - from
  {
    if from < m {
      FirstLineMissing(parameters, posterior, from + 1, m);
    }
  }

  /** The posterior text reads back, through `parse_csv`, as the
      parameter names and the first ten draws of every parameter as the
      parser rereads them, and as exactly those draws when every one reads
      back as itself. */
  lemma PosteriorReadsBack(parameters: seq<string>, posterior: map<string, seq<real>>, parse: NumberParser, format: NumberFormatter)
    requires |parameters| > 0 && forall j :: 0 <= j < |parameters| ==> PlainField(parameters[j])
    requires Available(parameters, posterior, PosteriorSamples)
    ensures PosteriorText(parameters, posterior, format).Returned?
    ensures var rows := PosteriorTable(parameters, posterior);
      RowsRereadable(rows, parse, format) ==>
        ParseCsv(PosteriorText(parameters, posterior, format).value, parse)
        == Returned(Table(RereadRows(rows, parse, format), parameters))
    ensures var rows := PosteriorTable(parameters, posterior);
      RowsReadBack(rows, parse, format) ==>
        ParseCsv(PosteriorText(parameters, posterior, format).value, parse) == Returned(Table(rows, parameters))
  {
    var rows := PosteriorTable(parameters, posterior);
    if RowsRereadable(rows, parse, format) {
      ParseWrittenCsv(parameters, rows, parse, format);
    }
    if RowsReadBack(rows, parse, format) {
      ParseWrittenCsvExactly(parameters, rows, parse, format);
    }
  }

  /** The sampler and the other computations `run_with` delegates. */
  datatype Delegates = Delegates(
    parse: NumberParser,
    sample: Chain.SampleFn,
    sqrt: real -> real,
    samplePosterior: (Chain.Chains, nat) -> map<string, seq<real>>,
    format: NumberFormatter)

  /** The model `run_with` fits: the regression of the temperatures on the
      centred dates. */
  function FittedModel(x: seq<real>, y: seq<real>): (r: Models.Model)
    requires |x| == |y| > 0
    ensures r.RegressionModel? && r.regression.y == y && |r.regression.x| == |x|
    ensures Sum(r.regression.x) == 0.0
  {
    CentredSumIsZero(x);
    Models.RegressionModel(Regression.Regression(Centre(x), y))
  }

  /** The first line of every posterior text of the regression. */
  const PosteriorHeader: string := "alpha,beta,sigma\n"

  /** A posterior text starts with the line of the parameter names. */
  lemma PosteriorTextHeader(parameters: seq<string>, posterior: map<string, seq<real>>, format: NumberFormatter)
    ensures var t := PosteriorText(parameters, posterior, format);
      t.Returned? ==> Join(parameters, ",") + "\n" <= t.value
  {
    if Available(parameters, posterior, PosteriorSamples) {
      WriteCsvHeader(parameters, PosteriorTable(parameters, posterior), format);
    }
  }

  /** The regression's names joined by `,` make the posterior header. */
  lemma RegressionHeader()
    ensures Join(["alpha", "beta", "sigma"], ",") + "\n" == PosteriorHeader
  {
    var names := ["alpha", "beta", "sigma"];
    assert names[1..] == ["beta", "sigma"];
    assert names[1..][1..] == ["sigma"];
  }

  /** The fitting half of `run_with` on data `(x, y)`: the regression of
      `y` on the centred `x`, started from the written initial position,
      run as `chainCount` chains; the histograms of the chains, which may
      panic; then the posterior text of the chains. */
  function Fit(x: seq<real>, y: seq<real>, seed: nat, chainCount: nat, tuning: nat, samples: nat, d: Delegates)
    : (r: Outcome<string>)
    requires |x| == |y| > 0
    requires Chain.IsU64(seed) && Chain.IsU64(chainCount)
    ensures var init := AsWrittenInitialPosition(Centre(x), y, d.sqrt);
      var chains := Chain.RunChains(d.sample, seed, FittedModel(x, y), chainCount, tuning, samples, init);
      && (chains.Panicked? ==> r == Panicked(chains.message))
      && (chains.Returned? ==>
            && chains.value.parameters == ["alpha", "beta", "sigma"]
            && chains.value.dim == 3
            && |chains.value.chains| == chainCount
            && (Chain.Plot(chains.value).Panicked? ==> r == Panicked(Chain.Plot(chains.value).message))
            && (Chain.Plot(chains.value).Returned? ==>
                  r == PosteriorText(chains.value.parameters, d.samplePosterior(chains.value, PosteriorSamples), d.format)))
    ensures chainCount == 0 ==> r == Panicked(UnwrapNone)
    ensures r.Returned? ==> PosteriorHeader <= r.value
  {
    match Regression.New(Centre(x), y)
    case Panicked(msg) => Panicked(msg)
    case Returned(regression) =>
      var model := Models.RegressionModel(regression);
      var init := AsWrittenInitialPosition(Centre(x), y, d.sqrt);
      match Chain.RunChains(d.sample, seed, model, chainCount, tuning, samples, init)
      case Panicked(msg) => Panicked(msg)
      case Returned(chains) =>
        match Chain.Plot(chains)
        case Panicked(msg) => Panicked(msg)
        case Returned(_) =>
          var posterior := d.samplePosterior(chains, PosteriorSamples);
          PosteriorTextHeader(chains.parameters, posterior, d.format);
          RegressionHeader();
          PosteriorText(chains.parameters, posterior, d.format)
  }

  /** `run_with`: the posterior text, or the first panic. */
  function RunWith(input: string, seed: nat, chainCount: nat, tuning: nat, samples: nat, d: Delegates): (r: Outcome<string>)
    requires Chain.IsU64(seed) && Chain.IsU64(chainCount)
    ensures var t := ParseCsv(input, d.parse);
      && (t.Panicked? ==> r == Panicked(t.message))
      && (t.Returned? && |t.value.observed| == 0 ==> r == Panicked(NoObservations))
      && (t.Returned? && |t.value.observed| > 0 && |t.value.parameters| < 2 ==> r == Panicked(IndexOutOfBounds))
    ensures var obs := Observations(input, d.parse);
      obs.Returned? ==> r == Fit(obs.value.0, obs.value.1, seed, chainCount, tuning, samples, d)
    ensures chainCount == 0 ==> r.Panicked?
    ensures r.Returned? ==> PosteriorHeader <= r.value
  {
    match Observations(input, d.parse)
    case Panicked(msg) => Panicked(msg)
    case Returned((x, y)) => Fit(x, y, seed, chainCount, tuning, samples, d)
  }

  /** Chains that all come back without draws cannot be plotted, so the
      fit panics on the `unwrap` of an empty maximum. */
  lemma FitWithoutDrawsPanics(x: seq<real>, y: seq<real>, seed: nat, chainCount: nat, tuning: nat, samples: nat, d: Delegates)
    requires |x| == |y| > 0
    requires Chain.IsU64(seed) && Chain.IsU64(chainCount)
    requires forall c :: 0 <= c < chainCount ==>
      var run := Chain.Run(d.sample, FittedModel(x, y), Chain.ChainSeed(seed, c), tuning, samples,
        AsWrittenInitialPosition(Centre(x), y, d.sqrt));
      run.Returned? ==> |run.value.trace| == 0
    ensures var r := Fit(x, y, seed, chainCount, tuning, samples, d);
      r.Panicked? && (r.message == UnwrapNone || Chain.RunChains(d.sample, seed, FittedModel(x, y), chainCount, tuning, samples,
        AsWrittenInitialPosition(Centre(x), y, d.sqrt)).Panicked?)
  {
    var chains := Chain.RunChains(d.sample, seed, FittedModel(x, y), chainCount, tuning, samples,
      AsWrittenInitialPosition(Centre(x), y, d.sqrt));
    if chains.Returned? {
      var cs := chains.value;
      assert Chain.NoDraws(cs) by {
        forall c | 0 <= c < |cs.chains|
          ensures |cs.chains[c].trace| == 0
        {
          assert Chain.Run(d.sample, FittedModel(x, y), Chain.ChainSeed(seed, c), tuning, samples,
            AsWrittenInitialPosition(Centre(x), y, d.sqrt)) == Returned(cs.chains[c]);
        }
      }
      Chain.PlotNeedsDraws(cs);
    }
  }

  /** A text `parse_csv` reads as the columns `alpha`, `beta`, `sigma`
      with ten rows. */
  predicate ReadsAsPosterior(text: string, parse: NumberParser)
  {
    var t := ParseCsv(text, parse);
    t.Returned? && t.value.parameters == ["alpha", "beta", "sigma"] && |t.value.observed| == PosteriorSamples
  }

  /** What the fitting half writes reads back as ten posterior draws of
      the three regression parameters. */
  lemma FitReadsBack(x: seq<real>, y: seq<real>, seed: nat, chainCount: nat, tuning: nat, samples: nat, d: Delegates)
    requires |x| == |y| > 0
    requires Chain.IsU64(seed) && Chain.IsU64(chainCount)
    requires AlwaysRereadable(d.parse, d.format)
    ensures var r := Fit(x, y, seed, chainCount, tuning, samples, d);
      r.Returned? ==> ReadsAsPosterior(r.value, d.parse)
  {
    var init := AsWrittenInitialPosition(Centre(x), y, d.sqrt);
    var chains := Chain.RunChains(d.sample, seed, FittedModel(x, y), chainCount, tuning, samples, init);
    if chains.Returned? {
      RegressionPosteriorReads(d.samplePosterior(chains.value, PosteriorSamples), d.parse, d.format);
    }
  }

  /** The posterior text of the regression's parameters reads back as ten
      rows of the three of them. */
  lemma RegressionPosteriorReads(posterior: map<string, seq<real>>, parse: NumberParser, format: NumberFormatter)
    requires AlwaysRereadable(parse, format)
    ensures var t := PosteriorText(["alpha", "beta", "sigma"], posterior, format);
      t.Returned? ==> ReadsAsPosterior(t.value, parse)
  {
    var parameters := ["alpha", "beta", "sigma"];
    if Available(parameters, posterior, PosteriorSamples) {
      assert PlainField("alpha") && PlainField("beta") && PlainField("sigma");
      assert RowsRereadable(PosteriorTable(parameters, posterior), parse, format);
      PosteriorReadsBack(parameters, posterior, parse, format);
    }
  }

  /** What `run_with` writes reads back, through `parse_csv`, as the
      columns `alpha`, `beta`, `sigma` with ten rows of draws. */
  lemma RunWithReadsBack(input: string, seed: nat, chainCount: nat, tuning: nat, samples: nat, d: Delegates)
    requires Chain.IsU64(seed) && Chain.IsU64(chainCount)
    requires AlwaysRereadable(d.parse, d.format)
    ensures var r := RunWith(input, seed, chainCount, tuning, samples, d);
      r.Returned? ==> ReadsAsPosterior(r.value, d.parse)
  {
    var obs := Observations(input, d.parse);
    if obs.Returned? {
      FitReadsBack(obs.value.0, obs.value.1, seed, chainCount, tuning, samples, d);
    }
  }
}
