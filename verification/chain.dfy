/** Running a collection of chains sequentially (`Chains::run`) and
    reading the draws back per parameter (`trace`, `traces`, `extrema`).
    One chain is produced by a sampling function of the shape `Run::run`
    calls (`be_nuts(model, tuning, samples, initial_position, seed)`). */
module Chain {
  import opened Results
  import Models
  import Sampler

  /** `u64` values are the naturals below this bound. */
  const U64Modulus: nat := 0x1_0000_0000_0000_0000

  predicate IsU64(n: int)
  {
    0 <= n < U64Modulus
  }

  /** The draws of one chain and the divergence reports among them. */
  datatype ChainRun = ChainRun(trace: seq<seq<real>>, stats: seq<Sampler.MyDivergenceInfo>)

  /** The sampler: `(model, tuning, samples, initial position, seed)` to the
      draws and divergence reports of one chain, or a panic. */
  type SampleFn = (Models.Model, nat, nat, seq<Float>, nat) -> Outcome<Sampler.SampleRun>

  /** `Run::run`: one chain, whose trace and statistics are exactly what the
      sampler returned; a panic in the sampler is a panic of the run. */
  function Run(sample: SampleFn, model: Models.Model, seed: nat, tuning: nat, samples: nat, init: seq<Float>): (r: Outcome<ChainRun>)
    ensures var s := sample(model, tuning, samples, init, seed);
      && (r.Returned? <==> s.Returned?)
      && (s.Panicked? ==> r.message == s.message)
      && (s.Returned? ==> r.value.trace == s.value.trace && r.value.stats == s.value.stats)
  {
    match sample(model, tuning, samples, init, seed)
    case Panicked(msg) => Panicked(msg)
    case Returned(run) => Returned(ChainRun(run.trace, run.stats))
  }

  /** The seed of chain `x`: `seed + x` in `u64` arithmetic, which wraps
      around in a release build. */
  function ChainSeed(seed: nat, x: nat): (r: nat)
    requires IsU64(seed) && IsU64(x)
    ensures IsU64(r)
    ensures (r - seed - x) % U64Modulus == 0
  {
    if seed + x < U64Modulus then seed + x else seed + x - U64Modulus
  }

  /** Distinct chains get distinct seeds, wrapped or not. */
  lemma SeedsDistinct(seed: nat, x: nat, y: nat)
    requires IsU64(seed) && IsU64(x) && IsU64(y)
    ensures ChainSeed(seed, x) == ChainSeed(seed, y) <==> x == y
  {
  }

  /** Without overflow, chain `x` is seeded with `seed + x`. */
  lemma SeedWithoutOverflow(seed: nat, x: nat)
    requires IsU64(seed) && IsU64(x) && seed + x < U64Modulus
    ensures ChainSeed(seed, x) == seed + x
  {
  }

  /** Chains `0 .. k - 1`, in order, each from a clone of the same model with
      the same tuning, sample count and initial position; the first panic
      aborts the rest. */
  function RunFirst(sample: SampleFn, model: Models.Model, seed: nat, k: nat, tuning: nat, samples: nat, init: seq<Float>)
    : (r: Outcome<seq<ChainRun>>)
    requires IsU64(seed) && k <= U64Modulus
    ensures r.Returned? <==> forall x :: 0 <= x < k ==> Run(sample, model, ChainSeed(seed, x), tuning, samples, init).Returned?
    ensures r.Returned? ==> |r.value| == k
    ensures r.Returned? ==> forall x :: 0 <= x < k ==>
      Run(sample, model, ChainSeed(seed, x), tuning, samples, init) == Returned(r.value[x])
    ensures r.Panicked? ==> exists x :: 0 <= x < k && FirstPanic(sample, model, seed, x, tuning, samples, init, r.message)
  {
    if k == 0 then Returned([])
    else
      match RunFirst(sample, model, seed, k - 1, tuning, samples, init)
      case Panicked(msg) => Panicked(msg)
      case Returned(cs) =>
        match Run(sample, model, ChainSeed(seed, k - 1), tuning, samples, init)
        case Panicked(msg) =>
          assert FirstPanic(sample, model, seed, k - 1, tuning, samples, init, msg);
          Panicked(msg)
        case Returned(c) => Returned(cs + [c])
  }

  /** Chain `x` is the first to panic, with message `msg`. */
  predicate FirstPanic(sample: SampleFn, model: Models.Model, seed: nat, x: nat, tuning: nat, samples: nat, init: seq<Float>, msg: string)
    requires IsU64(seed) && IsU64(x)
  {
    && Run(sample, model, ChainSeed(seed, x), tuning, samples, init) == Panicked(msg)
    && forall y :: 0 <= y < x ==> Run(sample, model, ChainSeed(seed, y), tuning, samples, init).Returned?
  }

  /** The chains of one run, with the model's dimension and parameter names. */
  datatype Chains = Chains(chains: seq<ChainRun>, dim: nat, parameters: seq<string>)

  /** `Chains::run`: `count` chains, chain `x` seeded with `seed + x`. */
  function RunChains(sample: SampleFn, seed: nat, model: Models.Model, count: nat, tuning: nat, samples: nat, init: seq<Float>)
    : (r: Outcome<Chains>)
    requires IsU64(seed) && IsU64(count)
    ensures r.Returned? <==> forall x :: 0 <= x < count ==> Run(sample, model, ChainSeed(seed, x), tuning, samples, init).Returned?
    ensures r.Returned? ==>
      && |r.value.chains| == count
      && r.value.dim == Models.Dim(model)
      && r.value.parameters == Models.Parameters(model)
      && forall x :: 0 <= x < count ==>
           Run(sample, model, ChainSeed(seed, x), tuning, samples, init) == Returned(r.value.chains[x])
    ensures r.Panicked? ==> exists x :: 0 <= x < count && FirstPanic(sample, model, seed, x, tuning, samples, init, r.message)
  {
    match RunFirst(sample, model, seed, count, tuning, samples, init)
    case Panicked(msg) => Panicked(msg)
    case Returned(cs) => Returned(Chains(cs, Models.Dim(model), Models.Parameters(model)))
  }

  /** Every draw of the chain has an entry for parameter `p`. */
  predicate HasParameter(c: ChainRun, p: nat)
  {
    forall k :: 0 <= k < |c.trace| ==> p < |c.trace[k]|
  }

  /** `ChainRun::trace(p)`: the value of parameter `p` in every draw, in
      draw order. */
  function Trace(c: ChainRun, p: nat): (r: seq<real>)
    requires HasParameter(c, p)
    ensures |r| == |c.trace|
    ensures forall k :: 0 <= k < |r| ==> r[k] == c.trace[k][p]
  {
    seq(|c.trace|, k requires 0 <= k < |c.trace| => c.trace[k][p])
  }

  /** Every draw of every chain has an entry for parameter `p`. */
  predicate AllHaveParameter(cs: Chains, p: nat)
  {
    forall c :: 0 <= c < |cs.chains| ==> HasParameter(cs.chains[c], p)
  }

  /** `Chains::traces(p)`: one trace per chain, in chain order. */
  function Traces(cs: Chains, p: nat): (r: seq<seq<real>>)
    requires AllHaveParameter(cs, p)
    ensures |r| == |cs.chains|
    ensures forall c :: 0 <= c < |r| ==> r[c] == Trace(cs.chains[c], p)
  {
    seq(|cs.chains|, c requires 0 <= c < |cs.chains| => Trace(cs.chains[c], p))
  }

  /** When every draw holds `dim` values, every parameter below `dim` can
      be traced, and trace `c` holds parameter `p` of every draw of chain
      `c`. */
  lemma TracesOfDimensionalDraws(cs: Chains, p: nat)
    requires p < cs.dim
    requires forall c, k :: 0 <= c < |cs.chains| && 0 <= k < |cs.chains[c].trace| ==> |cs.chains[c].trace[k]| == cs.dim
    ensures AllHaveParameter(cs, p)
    ensures forall c, k :: 0 <= c < |cs.chains| && 0 <= k < |cs.chains[c].trace| ==>
      Traces(cs, p)[c][k] == cs.chains[c].trace[k][p]
  {
  }

  /** `f64` values the extrema can take: the reals and the two infinities
      used as the fold's starting points. */
  datatype ExtReal = NegInf | Finite(v: real) | PosInf

  predicate Le(a: ExtReal, b: ExtReal)
  {
    match (a, b)
    case (NegInf, _) => true
    case (_, PosInf) => true
    case (Finite(x), Finite(y)) => x <= y
    case _ => false
  }

  /** `f64::min` on non-NaN values. */
  function Min(a: ExtReal, b: ExtReal): (r: ExtReal)
    ensures Le(r, a) && Le(r, b) && (r == a || r == b)
  {
    if Le(a, b) then a else b
  }

  /** `f64::max` on non-NaN values. */
  function Max(a: ExtReal, b: ExtReal): (r: ExtReal)
    ensures Le(a, r) && Le(b, r) && (r == a || r == b)
  {
    if Le(a, b) then b else a
  }

  /** The iterator fold of `extrema` over one trace, from the accumulator
      `(lo, hi)`: the least and the greatest of `lo`, `hi` and the values. */
  function FoldExtrema(xs: seq<real>, lo: ExtReal, hi: ExtReal): (r: (ExtReal, ExtReal))
    ensures Le(r.0, lo) && Le(hi, r.1)
    ensures forall i :: 0 <= i < |xs| ==> Le(r.0, Finite(xs[i])) && Le(Finite(xs[i]), r.1)
    ensures r.0 == lo || exists i :: 0 <= i < |xs| && r.0 == Finite(xs[i])
    ensures r.1 == hi || exists i :: 0 <= i < |xs| && r.1 == Finite(xs[i])
    decreases |xs|
  {
    if |xs| == 0 then (lo, hi)
    else
      var r := FoldExtrema(xs[1..], Min(lo, Finite(xs[0])), Max(hi, Finite(xs[0])));
      assert forall i :: 0 < i < |xs| ==> xs[i] == xs[1..][i - 1];
      r
  }

  lemma LeTransitive(a: ExtReal, b: ExtReal, c: ExtReal)
    requires Le(a, b) && Le(b, c)
    ensures Le(a, c)
  {
  }

  /** `Chains::extrema(p)`: the least and the greatest value of parameter
      `p` over every draw of every chain; `(+inf, -inf)` when there are no
      draws at all. */
  method Extrema(cs: Chains, p: nat) returns (lo: ExtReal, hi: ExtReal)
    requires AllHaveParameter(cs, p)
    ensures var ts := Traces(cs, p);
      && (forall c, k :: 0 <= c < |ts| && 0 <= k < |ts[c]| ==> Le(lo, Finite(ts[c][k])) && Le(Finite(ts[c][k]), hi))
      && (lo == PosInf || exists c, k :: 0 <= c < |ts| && 0 <= k < |ts[c]| && lo == Finite(ts[c][k]))
      && (hi == NegInf || exists c, k :: 0 <= c < |ts| && 0 <= k < |ts[c]| && hi == Finite(ts[c][k]))
      && ((lo == PosInf) <==> (forall c :: 0 <= c < |ts| ==> |ts[c]| == 0))
      && ((hi == NegInf) <==> (forall c :: 0 <= c < |ts| ==> |ts[c]| == 0))
  {
    ghost var ts := Traces(cs, p);
    lo, hi := PosInf, NegInf;
    var i := 0;
    while i < |cs.chains|
      invariant 0 <= i <= |cs.chains|
      invariant forall c, k :: 0 <= c < i && 0 <= k < |ts[c]| ==> Le(lo, Finite(ts[c][k])) && Le(Finite(ts[c][k]), hi)
      invariant lo == PosInf || exists c, k :: 0 <= c < i && 0 <= k < |ts[c]| && lo == Finite(ts[c][k])
      invariant hi == NegInf || exists c, k :: 0 <= c < i && 0 <= k < |ts[c]| && hi == Finite(ts[c][k])
    {
      var t := Trace(cs.chains[i], p);
      assert t == ts[i];
      var acc := FoldExtrema(t, PosInf, NegInf);
      ghost var lo0, hi0 := lo, hi;
      lo := Min(lo, acc.0);
      hi := Max(hi, acc.1);
      forall c, k | 0 <= c < i + 1 && 0 <= k < |ts[c]|
        ensures Le(lo, Finite(ts[c][k])) && Le(Finite(ts[c][k]), hi)
      {
        if c < i {
          LeTransitive(lo, lo0, Finite(ts[c][k]));
          LeTransitive(Finite(ts[c][k]), hi0, hi);
        } else {
          LeTransitive(lo, acc.0, Finite(ts[c][k]));
          LeTransitive(Finite(ts[c][k]), acc.1, hi);
        }
      }
      i := i + 1;
    }
    forall c | 0 <= c < |ts| && |ts[c]| > 0
      ensures lo != PosInf && hi != NegInf
    {
      assert Le(lo, Finite(ts[c][0])) && Le(Finite(ts[c][0]), hi);
    }
  }

  // ---------------------------------------------------------------------------
  // The panics of `plot`: only the bin counting of the histograms can fail
  // on the chains themselves; the drawing is not modelled.

  /** `(v * 10.).floor() / 10.`: `v` rounded down to a whole tenth. */
  function RoundDown(v: real): real
  {
    (v * 10.0).Floor as real / 10.0
  }

  /** `(v * 10.).ceil() / 10.`: `v` rounded up to a whole tenth. */
  function RoundUp(v: real): real
  {
    -((-v * 10.0).Floor as real) / 10.0
  }

  /** `v` is a whole number of tenths. */
  predicate IsTenth(v: real)
  {
    (v * 10.0).Floor as real == v * 10.0
  }

  /** The rounded range of the draws is empty exactly when the least and the
      greatest draw are one and the same whole tenth; a non-empty rounded
      range is at least a tenth wide, and its histogram has at least ten
      bins (`(max - min) / step` with `step` a tenth of the largest power of
      ten not above the range). */
  lemma RoundedRangeEmpty(lo: real, hi: real)
    requires lo <= hi
    ensures RoundDown(lo) <= lo && hi <= RoundUp(hi)
    ensures RoundDown(lo) == RoundUp(hi) <==> lo == hi && IsTenth(lo)
  {
    var a, b := (lo * 10.0).Floor, (-hi * 10.0).Floor;
    assert a as real <= lo * 10.0 && -hi * 10.0 < b as real + 1.0;
    if lo == hi && IsTenth(lo) {
      assert (-hi * 10.0).Floor == -a by {
        assert -hi * 10.0 == (-a) as real;
      }
    }
  }

  /** No chain has a draw. */
  predicate NoDraws(cs: Chains)
  {
    forall c :: 0 <= c < |cs.chains| ==> |cs.chains[c].trace| == 0
  }

  /** Every draw of parameter `p`, over every chain, is one and the same
      whole tenth: the rounded range of `p` is empty. */
  predicate SingleTenth(cs: Chains, p: nat)
    requires AllHaveParameter(cs, p)
  {
    && (forall c, k :: 0 <= c < |cs.chains| && 0 <= k < |cs.chains[c].trace| ==> IsTenth(cs.chains[c].trace[k][p]))
    && (forall c1, k1, c2, k2 ::
          0 <= c1 < |cs.chains| && 0 <= k1 < |cs.chains[c1].trace| &&
          0 <= c2 < |cs.chains| && 0 <= k2 < |cs.chains[c2].trace| ==>
            cs.chains[c1].trace[k1][p] == cs.chains[c2].trace[k2][p])
  }

  /** The panic of the histogram of parameter `p` in `plot`, if any:
      - `parameters[p]` and `trace(p)` index out of bounds;
      - with no chains, the `max().unwrap()` over the chains' bin heights;
      - with an empty rounded range (no draws, or one single whole tenth)
        there are no bins: the first chain's `counts.max().unwrap()`
        panics if it has no draws, and otherwise its first draw indexes
        the empty counts (`counts.len() - 1` wraps around in a release
        build). */
  function HistogramPanic(cs: Chains, p: nat): (r: Option<string>)
    ensures r.Some? <==>
      p >= |cs.parameters| || !AllHaveParameter(cs, p) || |cs.chains| == 0 || NoDraws(cs) || SingleTenth(cs, p)
    ensures r.Some? ==> r.value == UnwrapNone || r.value == IndexOutOfBounds
    ensures p < |cs.parameters| && AllHaveParameter(cs, p) && (|cs.chains| == 0 || NoDraws(cs)) ==> r == Some(UnwrapNone)
  {
    if p >= |cs.parameters| || !AllHaveParameter(cs, p) then Some(IndexOutOfBounds)
    else if |cs.chains| == 0 || NoDraws(cs) then Some(UnwrapNone)
    else if SingleTenth(cs, p) then Some(if |cs.chains[0].trace| == 0 then UnwrapNone else IndexOutOfBounds)
    else None
  }

  /** `plot` from parameter `p` on: the histograms in parameter order, the
      first panic aborting. */
  function PlotFrom(cs: Chains, p: nat): (r: Outcome<()>)
    ensures r.Returned? <==> forall q :: p <= q < cs.dim ==> HistogramPanic(cs, q).None?
    ensures r.Panicked? ==>
      exists q :: p <= q < cs.dim && HistogramPanic(cs, q) == Some(r.message) &&
        forall q' :: p <= q' < q ==> HistogramPanic(cs, q').None?
    decreases cs.dim - p
  {
    if p >= cs.dim then Returned(())
    else
      match HistogramPanic(cs, p)
      case Some(msg) => Panicked(msg)
      case None => PlotFrom(cs, p + 1)
  }

  /** `Chains::plot`, as far as it can panic on the chains. */
  function Plot(cs: Chains): (r: Outcome<()>)
    ensures r.Returned? <==> forall p :: 0 <= p < cs.dim ==> HistogramPanic(cs, p).None?
  {
    PlotFrom(cs, 0)
  }

  /** A model with parameters and no chains, or chains without draws,
      cannot be plotted: the `unwrap` on an empty maximum panics. */
  lemma PlotNeedsDraws(cs: Chains)
    requires cs.dim > 0 && |cs.parameters| > 0
    requires |cs.chains| == 0 || (NoDraws(cs) && AllHaveParameter(cs, 0))
    ensures Plot(cs) == Panicked(UnwrapNone)
  {
  }

  /** Chains whose draws all hold `dim` values, and in which every
      parameter's draws are not one single whole tenth, are plotted
      without a panic. */
  lemma PlotSpreadDraws(cs: Chains)
    requires |cs.parameters| >= cs.dim
    requires forall c, k :: 0 <= c < |cs.chains| && 0 <= k < |cs.chains[c].trace| ==> |cs.chains[c].trace[k]| == cs.dim
    requires |cs.chains| > 0 && !NoDraws(cs)
    requires forall p :: 0 <= p < cs.dim ==> !SingleTenth(cs, p)
    ensures Plot(cs).Returned?
  {
  }
}
