# web-nuts-rs core, modelled in Dafny

web-nuts-rs is a browser application. It fits a Bayesian linear regression of
maximum daily temperature against time, using the No-U-Turn Sampler (NUTS)
of the `nuts_rs` crate. This project models the logic around the sampler:

- the models the sampler can run on: the regression and a multivariate
  normal with identity covariance. Each has a dimension, parameter names and
  a log-density with gradient;
- one chain (`be_nuts`) over an abstract sampling engine. The chain starts at
  the origin, discards 50 burn-in draws, records the requested number of
  draws and keeps the divergence reports among them;
- several chains (`Chains::run`), seeded `seed + x`, and reading their draws
  back per parameter (`trace`, `traces`, `extrema`), including the panics of
  the histogram binning in `plot`;
- the text handling of `src/lib.rs`:
  - `prepare` turns NOAA GHCN daily records into a `DATE,TMAX` CSV;
  - `parse_csv` reads such a CSV back;
  - `run_with` centres the dates, fits the regression and writes ten
    posterior draws per parameter as a CSV.

Arithmetic is over `real`, which idealises `f64`. A Rust panic is the value
`Panicked(message)` of `Results.Outcome`. Everything the program delegates is
a parameter of the model:

- the sampling engine;
- the natural logarithm;
- date conversion;
- number parsing and formatting;
- the square root;
- the posterior sampler.

Modules, one file each:

- `Results` (`results.dfy`): `Option`, `Result`, `Outcome` and the standard
  panic messages.
- `Text` (`text.dfy`): `trim`, `split` and `join` on strings.
- `Csv` (`csv.dfy`): `parse_csv` and the CSV writer used by `prepare` and
  `run_with`.
- `Prepare` (`prepare.dfy`): `prepare`.
- `Regression` (`regression.dfy`): `src/model/regression.rs`.
- `MvNormal` (`mvnormal.dfy`): `src/model/mv.rs` and `src/model.rs`, which
  share `dim` and `logp`; only `src/model/mv.rs` has `parameters`.
- `Models` (`models.dfy`): the model interface the sampler sees (`dim`,
  `parameters`, `logp`, `is_recoverable`).
- `Sampler` (`sampler.dfy`): `src/sampler.rs`.
- `Chain` (`chain.dfy`): `src/chain.rs`.
- `App` (`app.dfy`): `run_with`.

## Model

| member | source | states |
|---|---|---|
| Text.Trim | src/lib.rs:45 | the trimmed text is no longer than the input and neither starts nor ends with whitespace |
| Text.TrimIsInfix | src/lib.rs:45 | trimming removes only leading and trailing whitespace: the result is a contiguous piece of the input, and everything cut off on either side is whitespace |
| Text.SplitPiecesLackSeparator | src/lib.rs:46 | no piece of a split contains the separator |
| Text.JoinSplit | src/lib.rs:46 | joining the pieces of a split with the same separator gives back the input |
| Text.SplitJoin | src/lib.rs:46 | splitting a join of pieces that lack the separator gives back those pieces |
| Text.SplitCount | src/lib.rs:46 | a split has one more piece than the input has separators |
| Text.Split | src/lib.rs:46-47 | a split always has at least one piece, so taking the first line of the trimmed input never panics |
| Text.JoinIsConcat | src/lib.rs:243 | a join is the first part followed by every later part with the separator in front of it |
| Text.TrimEachTrimmed | src/lib.rs:48-51 | trimming names that are already trimmed leaves them unchanged |
| Csv.ParseFieldsCases | src/lib.rs:57-60 | a row parses exactly when every trimmed field parses; value `j` is the parse of trimmed field `j`; otherwise the `unwrap` panic |
| Csv.ParseRowCases | src/lib.rs:56-63 | a row line returns exactly when all its fields parse and their count equals the header's; a wrong count panics with "Wrong number of columns" |
| Csv.ParseRows | src/lib.rs:53-64 | one row per line after the header, in line order, each as wide as the header; the first bad line panics |
| Csv.ParseCsv | src/lib.rs:44-67 | the parameter names are the first line of the trimmed input split on `,` and trimmed; one row per further line, each as wide as the names; the only panics are the parse `unwrap` and the column count |
| Csv.ParseCsvLines | src/lib.rs:44-67 | `parse_csv` returns exactly when every line after the header parses as a row of the header's width, and row `i` is that line's parse |
| Csv.WriteCsv | src/lib.rs:240-254 | the written text is the header line and one line per row, joined by newlines and ending in one |
| Csv.ConstantFormatRereadable | src/lib.rs:59 | the rereadability assumption the read-back lemmas use is satisfiable |
| Csv.RereadRowsUnchanged | src/lib.rs:59 | rows whose every value reads back as itself are rereadable, and rereading leaves them unchanged |
| Csv.ParseWrittenRow | src/lib.rs:56-63 | a row whose formatted values are plain fields the parser reads parses back to those values as reread |
| Csv.ParseWrittenCsv | src/lib.rs:44-67 | a CSV written from plain names and rows as wide as the names, whose every value the parser reads, parses back to exactly those names and the rows reread |
| Csv.ParseWrittenCsvExactly | src/lib.rs:44-67 | when every written value reads back as itself, the CSV parses back to exactly the names and rows it was written from |
| Prepare.PrepareLine | src/lib.rs:110-124 | a record with fewer than six fields panics; an unselected record is skipped; a kept record's date is the converted field 1 and its value is the integer of field 3 divided by 10; a failed record failed on a non-existent date; a selected record whose date exists and whose value is an integer is kept |
| Prepare.ExtractRows | src/lib.rs:110-125 | every kept row has two values, the date and the temperature; the only error is `InvalidDateFormat` |
| Prepare.ExtractRowsCount | src/lib.rs:118 | a successful run keeps exactly as many rows as there are records with element `TMAX` and an empty quality flag |
| Prepare.ExtractRowsOrder | src/lib.rs:110-125 | the kept rows are in input order: the row of the selected record on line `i` is the date and value of that record, preceded by exactly one row per selected record before it |
| Prepare.ShortRecordPanics | src/lib.rs:112-116 | one record with fewer than six fields anywhere after the header means no output: a panic, or an earlier date error |
| Prepare.WriteRecordLine | src/lib.rs:123 | appending one formatted `date,value` line to the output is appending one row to the CSV |
| Prepare.RecordLoop | src/lib.rs:106-127 | the record loop's output is the CSV, under `DATE,TMAX`, of the rows `ExtractRows` keeps, or its first error or panic |
| Prepare.Prepare | src/lib.rs:93-128 | `prepare` equals the reference definition `PrepareSpec`; it reports `UnexpectedRawDataHeader` exactly when the first line of the trimmed input is not the expected header |
| Prepare.PreparedDataParses | src/lib.rs:93-128 | the output of a successful `prepare` reads back, through `parse_csv`, as the columns `DATE`, `TMAX` holding the kept rows as the parser rereads them, and exactly the kept rows when every value reads back as itself |
| Regression.IsRecoverable | src/model/regression.rs:23-27 | `NegativeSigma` is recoverable |
| Regression.New | src/model/regression.rs:38-41 | the model is built exactly when `x` and `y` have the same length, and keeps both unchanged; otherwise the `assert_eq!` panic |
| Regression.Dim | src/model/regression.rs:128-130 | the regression always has three parameters |
| Regression.LogPdfNormalPeak | src/model/regression.rs:44-48 | the normal log-density is greatest at the mean, and only there |
| Regression.LogPdfNormalSymmetric | src/model/regression.rs:44-48 | the normal log-density is symmetric about the mean |
| Regression.Parameters | src/model/regression.rs:134-140 | one name per dimension: `alpha`, `beta`, `sigma` at positions 0, 1, 2 |
| Regression.Logp | src/model/regression.rs:53-126 | an error exactly when `sigma <= 0`, and then `grad` is untouched; otherwise the log-density is likelihood plus priors, and the gradient holds the likelihood's derivatives in closed form, leaving the entries past 3 untouched |
| Regression.LogpCorrected | src/model/regression.rs:53-126 | as `Logp`, with `-alpha/100` and `-beta/100` (the priors' derivatives) added to the first two gradient entries |
| Regression.DAlphaClosedForm | src/model/regression.rs:101-106 | the `d_alpha` fold is the sum of residuals divided by `sigma^2` |
| Regression.DBetaClosedForm | src/model/regression.rs:107-113 | the `d_beta` fold is the sum of residuals times `x` divided by `sigma^2` |
| Regression.DSigmaClosedForm | src/model/regression.rs:114-119 | the `d_sigma` fold is the sum of squared residuals over `sigma^3` minus `n / sigma` |
| Regression.CorrectedGradientIsCentralDifference | src/model/regression.rs:82-123 | the corrected `alpha` and `beta` gradient entries equal the central difference quotient of the log-density, for every step |
| Regression.AsWrittenGradientMissesPrior | src/model/regression.rs:121-122 | the written `alpha` and `beta` entries differ from the central difference quotient by the priors' derivatives; with no data at `(1, 0, 1)` the written `alpha` entry is 0 but the quotient is `-0.01` |
| Regression.SigmaPriorIsFlat | src/model/regression.rs:82-98 | changing only `sigma` changes the log-density exactly as much as the likelihood |
| MvNormal.Dim | src/model/mv.rs:43-45 | the dimension is the stored `dims` |
| MvNormal.Parameters | src/model/mv.rs:34-38 | the parameter names are the stored names, unchanged |
| MvNormal.Logp | src/model/mv.rs:47-79 | panics exactly when the position does not have `dims` entries (the `assert_eq!`) or an observation is too short to index; otherwise returns a log-density `<= 0`, and `grad[d]` is the coordinate sum minus `n` times `position[d]`, the entries past `dims` untouched |
| MvNormal.LogDensityNonPositive | src/model.rs:57-68 | the log-density `-1/2 sum_i ||obs_i - mu||^2` is never positive |
| MvNormal.DeviationsClosedForm | src/model.rs:48-55 | the sum of deviations along `d` is the coordinate sum minus `n mu_d` |
| MvNormal.NoObservations | src/model/mv.rs:53-78 | with no observations `logp` returns, with log-density 0 and a zero gradient |
| MvNormal.GradientZeroAtMean | src/model/mv.rs:53-63 | at the per-coordinate mean of the observations every gradient entry is 0 |
| MvNormal.GradientIsDeviations | src/model/mv.rs:56-63 | `grad[d]` is the sum of the deviations `obs_i[d] - position[d]` |
| MvNormal.GradientIsCentralDifference | src/model/mv.rs:53-76 | every gradient entry equals the central difference quotient of the returned log-density along that coordinate, for every step |
| Models.Dim | src/chain.rs:16-19 | the regression has dimension 3; the multivariate normal has its `dims` |
| Models.Parameters | src/chain.rs:16-19 | the regression's names are `alpha, beta, sigma`; the multivariate normal's are its stored names |
| Models.ParametersMatchDim | src/model/regression.rs:128-140 | the regression has one name per dimension; the multivariate normal has one exactly when its stored names match `dims` |
| Models.IsRecoverable | src/model/regression.rs:23-27 | a model error is recoverable exactly when the regression error is |
| Models.Logp | src/chain.rs:16-19 | the regression, evaluated as written, never panics and reports a recoverable error exactly when `sigma <= 0`, leaving `grad` untouched; the multivariate normal panics exactly on a wrong-length position or a short observation |
| Models.GradientIsCentralDifference | src/model/regression.rs:82-123 | whenever `logp` reports a value, every gradient entry along a mean coordinate is the central difference quotient of the reported log-density; along `alpha` and `beta` the written entry falls short of that quotient by the prior's derivative, so it differs whenever the coordinate is non-zero |
| Models.LogpCorrected | src/model/regression.rs:53-126 | `logp` with the regression's gradient corrected: the same errors and panics as `Logp`, and the multivariate normal unchanged |
| Models.CorrectedGradientIsCentralDifference | src/model/regression.rs:82-123 | with the corrected regression gradient, every gradient entry along a mean coordinate, or along `alpha` or `beta`, is the central difference quotient of the reported log-density |
| Sampler.FromDivergenceInfo | src/sampler.rs:18-29 | all seven fields of the engine's divergence report are copied unchanged |
| Sampler.DivergenceInfoRoundTrip | src/sampler.rs:18-29 | the copy loses nothing: it maps back to the report it came from, and the correspondence is one to one |
| Sampler.Draws | src/sampler.rs:58-70 | `k` successful draws are `k` steps, each from the state the previous one left |
| Sampler.DrawsChained | src/sampler.rs:58-70 | every draw of a run starts from the state the previous draw left, the first from the start state |
| Sampler.DrawsSplit | src/sampler.rs:58-70 | burn-in followed by sampling is one run of `50 + n` draws; an error in the first part is final |
| Sampler.DrawsStopAtError | src/sampler.rs:58-65 | once a draw fails, every longer run fails with the same error |
| Sampler.DivergencesInOrder | src/sampler.rs:64-70 | the `j`-th report is the copy of the report of the `j`-th divergent draw; the divergent draws are exactly those with a report, in increasing order |
| Sampler.Expect | src/sampler.rs:55 | an `expect` panic message starts with the phase's text |
| Sampler.Zeros | src/sampler.rs:54 | the start position has `dim` entries, all zero |
| Sampler.BeNuts | src/sampler.rs:33-73 | a failed set-position panics with the init message; otherwise `be_nuts` returns exactly when `50 + n` draws succeed, and the trace is the positions of the last `n` draws and the stats their divergence reports; the trace has `n` entries and there are at most `n` reports |
| Sampler.TuningOnlyConfiguresEngine | src/sampler.rs:43-50 | the tuning length only reaches the engine's creation: two tuning lengths that create the same engine give the same run |
| Sampler.StatsAreDivergentDraws | src/sampler.rs:62-72 | every stats entry belongs to a recorded draw that reported a divergence, in draw order, and every such draw has one |
| Sampler.BurnInLoop | src/sampler.rs:58-60 | the burn-in loop leaves the state after 50 draws, or the first error among them |
| Sampler.SamplingStep | src/sampler.rs:64-69 | one more draw appends its position to the trace and its report, if any, to the stats |
| Sampler.SamplingLoop | src/sampler.rs:62-70 | the sampling loop returns the positions and reports of `n` draws, or the first error |
| Sampler.RunBeNuts | src/sampler.rs:33-73 | the imperative `be_nuts`, with its two loops, equals `BeNuts` |
| Chain.Run | src/chain.rs:22-33 | a run's trace and stats are exactly what the sampler returned; a sampler panic is a run panic |
| Chain.ChainSeed | src/chain.rs:79 | the seed of chain `x` is a `u64` congruent to `seed + x` modulo 2^64 |
| Chain.SeedsDistinct | src/chain.rs:79 | distinct chains get distinct seeds, wrapped or not |
| Chain.SeedWithoutOverflow | src/chain.rs:79 | without overflow, chain `x` is seeded with `seed + x` |
| Chain.RunFirst | src/chain.rs:75-85 | `k` chains in index order, each run on the same model, tuning, sample count and initial position with its own seed; the first panic aborts |
| Chain.RunChains | src/chain.rs:67-92 | `Chains::run` returns exactly when every chain does; then it holds `count` chains in order, chain `x` being the run seeded `seed + x`, and the model's dimension and names; otherwise it panics with the first chain's panic |
| Chain.Trace | src/chain.rs:44-49 | one value per draw, in draw order; value `k` is parameter `p` of draw `k` |
| Chain.Traces | src/chain.rs:115-117 | one trace per chain, in chain order |
| Chain.TracesOfDimensionalDraws | src/chain.rs:115-117 | when every draw has `dim` values, every parameter below `dim` can be traced, and each traced value is that parameter of that draw |
| Chain.Min | src/chain.rs:104 | `f64::min` is a lower bound of both arguments and is one of them |
| Chain.Max | src/chain.rs:104 | `f64::max` is an upper bound of both arguments and is one of them |
| Chain.FoldExtrema | src/chain.rs:100-106 | the fold over one trace bounds every value and its starting accumulator, and each bound is the starting one or some value |
| Chain.RoundedRangeEmpty | src/chain.rs:140 | the extrema rounded outwards to whole tenths enclose the draws, and the rounded range is empty exactly when the least and greatest draw are one and the same whole tenth |
| Chain.HistogramPanic | src/chain.rs:133-163 | the histogram of a parameter panics exactly when its name or a draw's entry is missing (index), when there are no chains or no draws (`unwrap` of an empty maximum), or when all its draws are one whole tenth (no bins); with no chains or no draws the panic is the `unwrap` |
| Chain.PlotFrom | src/chain.rs:133-163 | the histograms are made in parameter order; `plot` returns exactly when none panics, and otherwise panics with the first parameter's panic |
| Chain.Plot | src/chain.rs:119-163 | `plot` returns exactly when no parameter's histogram panics |
| Chain.PlotNeedsDraws | src/chain.rs:152-163 | with at least one parameter, no chains or chains without draws make `plot` panic on the `unwrap` |
| Chain.PlotSpreadDraws | src/chain.rs:152-163 | chains with draws of `dim` values each, none of whose parameters has all its draws at one whole tenth, are plotted without a panic |
| Chain.Extrema | src/chain.rs:95-112 | the least and greatest value of the parameter over every chain bound every value and are attained; `(+inf, -inf)` exactly when there are no draws |
| App.Column | src/lib.rs:192-193 | column `k` of every row in row order, returned exactly when every row has an entry `k`; otherwise the index panic |
| App.Observations | src/lib.rs:184-201 | a parse panic propagates; no rows panics with "at least one element"; otherwise the dates and temperatures are columns 0 and 1 of the rows, returned exactly when the header has at least two names; the length-mismatch panic never happens |
| App.Shift | src/lib.rs:207 | every shifted value plus the shift gives back the original |
| App.SumShift | src/lib.rs:205-207 | shifting every value by `c` shifts the sum by `n c` |
| App.CentredSumIsZero | src/lib.rs:203-207 | the dates measured from their mean sum to zero |
| App.Centre | src/lib.rs:205-207 | every centred date plus the mean gives back the date, and the centred dates sum to zero |
| App.DivideF64 | src/lib.rs:212 | an `f64` quotient is a number exactly when the divisor is non-zero, and then times the divisor gives the dividend; NaN exactly for `0/0` |
| App.GuessedBetaAsWritten | src/lib.rs:212 | the written slope guess is a number exactly when the dates do not sum to zero, and then times that sum gives the sum of the temperatures; NaN exactly when both sums are zero |
| App.GuessedAlpha | src/lib.rs:213 | the guessed intercept times `n` is the sum of the temperatures |
| App.AsWrittenBetaIsNeverFinite | src/lib.rs:212 | the written slope guess divides by the sum of centred dates, so it is never a finite number |
| App.AsWrittenBetaExample | src/lib.rs:212 | dates 1 and 3 with temperatures 1 and 1 give the slope guess `2 / 0`, an infinity |
| App.GuessedBeta | src/lib.rs:212 | the least-squares slope: times `sum x^2` it gives `sum x y`, and it is 0 when the dates do not vary |
| App.GuessRecoversLine | src/lib.rs:211-213 | for responses exactly on a line over centred, varying dates, the guessed intercept and slope are that line's |
| App.LineSums | src/lib.rs:211-213 | over centred dates, the responses of a line `a + b x` sum to `n a`, and their products with the dates sum to `b sum x^2` |
| App.GuessedSigma | src/lib.rs:214-220 | the guessed noise times `n` is the square root of the guessed line's sum of squared residuals |
| App.GuessedSigmaAsWritten | src/lib.rs:214-220 | the noise guess is a number exactly when the slope guess is; with an infinite slope it is NaN exactly when some date is 0 (`inf * 0`), otherwise infinite; a NaN slope gives NaN |
| App.AsWrittenInitialPosition | src/lib.rs:211-221 | one entry per regression parameter: the intercept guess is a number, times `n` the sum of the temperatures; the slope and noise guesses are numbers exactly when the dates do not sum to zero |
| App.AsWrittenStartIsNotFinite | src/lib.rs:203-221 | over centred dates the written slope and noise guesses are never numbers; the slope is infinite exactly when the temperatures do not sum to zero, the noise exactly when besides no date equals the mean |
| App.AsWrittenStartExample | src/lib.rs:203-221 | dates 1 and 3 with temperatures 1 and 1 start the chains at `[1, inf, inf]` |
| App.CorrectedInitialPosition | src/lib.rs:211-221 | the initial position with the least-squares slope: one entry per parameter, the guessed intercept, slope and noise |
| App.CorrectedStartOnLine | src/lib.rs:211-221 | for temperatures on a line over centred, varying dates, the corrected start is that line's intercept and slope, with noise `sqrt(0) / n` |
| App.PosteriorLine | src/lib.rs:247-250 | draw `i` of every parameter in parameter order, returned exactly when every parameter is present with more than `i` draws; a missing parameter panics on `unwrap`, a short sequence on the index |
| App.PosteriorRows | src/lib.rs:246-254 | the lines of draws in order, line `k` holding draw `k` of every parameter; returned exactly when every parameter has enough draws |
| App.PosteriorText | src/lib.rs:240-254 | returned exactly when every parameter has ten draws: the names joined by `,`, then ten lines of one value per parameter, in parameter order; otherwise the `unwrap` or index panic |
| App.MissingParameterPanics | src/lib.rs:249 | a parameter missing from the posterior panics on `unwrap` when every parameter before it has a draw |
| Csv.WriteCsvHeader | src/lib.rs:243-244 | a CSV text starts with its names joined by `,` and a newline |
| App.PosteriorTextHeader | src/lib.rs:243-244 | a posterior text starts with the line of the parameter names |
| App.PosteriorReadsBack | src/lib.rs:240-254 | the posterior text reads back, through `parse_csv`, as the names and the first ten draws of every parameter as the parser rereads them, and as exactly those draws when each reads back as itself |
| App.FittedModel | src/lib.rs:205-209 | the fitted model is the regression on the centred dates, whose sum is zero, with the temperatures unchanged |
| App.Fit | src/lib.rs:205-254 | the chains are run from the written initial position; a chains panic propagates; otherwise there are `chain_count` chains over `alpha, beta, sigma`, a panic of `plot` propagates, and else the result is the posterior text of their posterior sample; with no chains the result is the `unwrap` panic; a returned text starts with `alpha,beta,sigma` |
| App.FitWithoutDrawsPanics | src/lib.rs:224-228 | when every chain comes back without draws, the fit panics, on the `unwrap` of `plot` unless the chains themselves panicked |
| App.RunWith | src/lib.rs:172-258 | a `parse_csv` panic propagates; an input without data rows panics with "at least one element"; data rows under a header of fewer than two names panic on the index; otherwise `run_with` is the fit of columns 0 and 1; with no chains it panics; a returned text starts with the line `alpha,beta,sigma` |
| App.RegressionPosteriorReads | src/lib.rs:240-254 | a posterior text of the regression's parameters reads back as ten rows of `alpha, beta, sigma`, for a formatter whose every output the parser reads |
| App.FitReadsBack | src/lib.rs:205-254 | what the fit writes reads back as ten rows of `alpha, beta, sigma`, for a formatter whose every output the parser reads |
| App.RunWithReadsBack | src/lib.rs:172-258 | what `run_with` writes reads back, through `parse_csv`, as ten rows of `alpha, beta, sigma`, for a formatter whose every output the parser reads |

## Left out

- Plotting: the drawing part of `Chains::plot` (src/chain.rs:119 onwards),
  `plot_tmax` and `src/plot.rs`. They draw on a canvas. Of `plot`, only the
  panics of the histogram binning (src/chain.rs:133-163) are modelled
  (`Chain.Plot`). Left out are the canvas lookup `expect("cannot find
  canvas")` and the `unwrap`s on drawing results, which depend on the page
  and on the plotting library.
- Chain.HistogramPanic: a non-empty rounded range is taken to give at least
  one bin, which holds for finite draws. The exact number of bins is not
  computed. NaN and infinite draws are not modelled. When all draws are one
  whole tenth, the panic is the release build's out-of-bounds index; a debug
  build panics one step earlier, on the overflow of `counts.len() - 1`.
- The NUTS engine itself (`new_sampler`, `set_position`, `draw`, step-size
  and mass-matrix adaptation). It is the record `Sampler.Engine`. Its random
  number generator is whatever the engine does with the seed it is created
  with. Of `SamplerArgs`, only the tuning length is modelled; the other
  arguments keep the engine's defaults.
- The natural logarithm. It is a parameter `ln`, so the regression's
  log-density values are stated only in terms of `ln`.
- `f64` rounding, NaN and infinities. Arithmetic is exact over `real`. The
  extrema's infinite sentinels are `Chain.ExtReal`. `Results.Float` carries
  the initial position, where division by zero matters: `App.DivideF64`
  models it, without the sign of an infinity. In `f64` the centred dates may
  sum to a tiny rounding residue rather than to zero; the slope guess is then
  huge rather than infinite. Exact arithmetic gives zero.
- Chain.Min: modelled on non-NaN values, because `f64::min` ignoring NaN is
  not modelled.
- Chain.Max: modelled on non-NaN values, for the same reason.
- `parse_date` (src/lib.rs:71-85): calendar validation and the conversion to
  years since year 0. It is the parameter `parseDate` of `Prepare.Converters`.
  It may panic (short or non-numeric date), return `None` (no such day), or
  return the years.
- Parsing `f64` and `i32` and formatting `f64` with `{}`. These are the
  parameters `parse`, `parseInt` and `format`. The read-back lemmas assume
  that each written value is a plain field the parser reads
  (`Csv.Rereadable`), and exactness that it reads back as itself
  (`Csv.ReadsBack`); `{}` on an `f64` writes `inf` and `NaN`, which `parse`
  reads.
- `Chains::sample_posterior`: it is called in `run_with` but is not defined
  in the program's source. It is the parameter `samplePosterior` of
  `App.Delegates`, and no selection policy is assumed.
- The square root in `guessed_sigma`. It is a parameter.
- App.GuessedSigma: stated only up to the abstract square root.
- The browser bindings: `wasm_bindgen`, `set_panic_hook`, `log`, and the
  `web_sys` window, document and element lookups with their `unwrap`s. The
  posterior text is returned rather than written into the page. Concurrency:
  there is none, since chains run one after another.
- `Display` for `MyError` and `RegressionError`, and the conversion of
  `MyError` into a JavaScript value.
- The values printed by a failing `assert_eq!`. Its panic message is modelled
  as the assertion text plus the custom message.
- Chain.ChainSeed: models the release build, where `seed + x` wraps around
  modulo 2^64. A debug build panics on the overflow instead; that is not
  modelled.
- `ChainRun::stats` (src/chain.rs:53-55). It returns the `stats` field, which
  the model reads directly.
- The argument mismatch between `Run::run` and `be_nuts`. `Run::run`
  (src/chain.rs:22-33) passes five arguments, including the initial position.
  `be_nuts` (src/sampler.rs:33-38) takes four and always starts from the
  origin. `Chain.SampleFn` has the five-argument shape of the call, and
  `Sampler.BeNuts` the four-argument shape of the definition. The initial
  position `run_with` computes therefore reaches the chains, but not the
  sampler as written.
- Burn-in length: `be_nuts` discards a fixed 50 draws (src/sampler.rs:58-60),
  whatever the tuning length; the tuning length only goes into
  `SamplerArgs::num_tune` (src/sampler.rs:43-50). The model keeps both
  (`Sampler.BurnIn`, `Sampler.TuningOnlyConfiguresEngine`).
- Short posteriors: `run_with` panics on the index when a posterior sequence
  has fewer than ten draws (src/lib.rs:249); there is no error value for it
  (`App.PosteriorText`).
- Regression.Logp: requires `position` and `grad` to have at least three
  entries, because the engine always passes buffers of length `dim`.
  Shorter buffers would panic on the index.
- Models.Logp: requires a gradient buffer of at least `dim` entries, and for
  the regression a position of at least three, for the same reason.
- MvNormal.Logp: requires a gradient buffer of at least `dims` entries, for
  the same reason.
- Prepare.PrepareLine: states only one direction for panics. A panic of
  `parse_date` itself may carry any message, so only "fewer than six fields
  gives the index panic" is stated.
- The unit tests of `src/model/regression.rs`. They call `logp` at fixed
  points; the model states the general formulas instead.

## Findings

| source | as written | input that shows it | evidently intended | confidence | as-written member | corrected member |
|---|---|---|---|---|---|---|
| src/model/regression.rs:121-122 | the gradient written for `alpha` and `beta` is only the likelihood's derivative, although `logp` adds the `Normal(0, 10)` priors to the log-density | no data, position `alpha = 1, beta = 0, sigma = 1`: the written `alpha` entry is 0, but the log-density falls by 0.01 per unit of `alpha` | the gradient of the returned log-density: `-alpha/100` and `-beta/100` added to the two entries | high that the gradient and log-density disagree; not executed | Regression.AsWrittenGradientMissesPrior | Regression.CorrectedGradientIsCentralDifference |
| src/lib.rs:212 | `guessed_beta` divides the sum of `y` by the sum of the centred `x`, which is zero | dates `[1, 3]`, temperatures `[1, 1]`: the centred dates are `[-1, 1]`, and the guess is `2 / 0`, an infinity that also makes `guessed_sigma` infinite (App.AsWrittenStartExample) | a finite slope estimate; the least-squares slope `sum x y / sum x^2` over centred dates is one choice, while the test at src/model/regression.rs:199-200 divides by the raw `sum x` | medium as to the intended formula; not executed | App.AsWrittenBetaIsNeverFinite | App.GuessRecoversLine |

The program model uses the as-written definitions: `Models.Logp` evaluates
`Regression.Logp`, and `App.Fit` starts the chains from
`App.AsWrittenInitialPosition`. The corrected definitions
(`Regression.LogpCorrected`, `Models.LogpCorrected`, `App.GuessedBeta`,
`App.CorrectedInitialPosition`) stand beside them with their properties
proved.
