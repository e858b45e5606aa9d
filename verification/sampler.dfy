/** One NUTS chain (`be_nuts`) driven through an abstract sampling engine.
    The engine (`nuts_rs`: `new_sampler`, `set_position`, `draw`) is a
    record of three functions over an engine state `S`; its random number
    generator is determined by the seed it is created with, so the whole run
    is a function of the model, the tuning length, the sample count and the
    seed. */
module Sampler {
  import opened Results
  import Models

  /** `nuts_rs::DivergenceInfo`: what the engine reports about a divergent
      trajectory, every part optional. */
  datatype DivergenceInfo = DivergenceInfo(
    startMomentum: Option<seq<real>>,
    startLocation: Option<seq<real>>,
    startGradient: Option<seq<real>>,
    endLocation: Option<seq<real>>,
    energyError: Option<real>,
    endIdxInTrajectory: Option<int>,
    startIdxInTrajectory: Option<int>)

  /** The program's own copy of a divergence report. */
  datatype MyDivergenceInfo = MyDivergenceInfo(
    startMomentum: Option<seq<real>>,
    startLocation: Option<seq<real>>,
    startGradient: Option<seq<real>>,
    endLocation: Option<seq<real>>,
    energyError: Option<real>,
    endIdxInTrajectory: Option<int>,
    startIdxInTrajectory: Option<int>)

  /** `From<&DivergenceInfo> for MyDivergenceInfo`: a field-by-field copy. */
  function FromDivergenceInfo(d: DivergenceInfo): (r: MyDivergenceInfo)
    ensures r.startMomentum == d.startMomentum && r.startLocation == d.startLocation
    ensures r.startGradient == d.startGradient && r.endLocation == d.endLocation
    ensures r.energyError == d.energyError
    ensures r.endIdxInTrajectory == d.endIdxInTrajectory && r.startIdxInTrajectory == d.startIdxInTrajectory
  {
    MyDivergenceInfo(d.startMomentum, d.startLocation, d.startGradient, d.endLocation,
      d.energyError, d.endIdxInTrajectory, d.startIdxInTrajectory)
  }

  /** The copy loses nothing: it maps back to the report it came from. */
  function ToDivergenceInfo(d: MyDivergenceInfo): DivergenceInfo
  {
    DivergenceInfo(d.startMomentum, d.startLocation, d.startGradient, d.endLocation,
      d.energyError, d.endIdxInTrajectory, d.startIdxInTrajectory)
  }

  lemma DivergenceInfoRoundTrip(d: DivergenceInfo, m: MyDivergenceInfo)
    ensures ToDivergenceInfo(FromDivergenceInfo(d)) == d
    ensures FromDivergenceInfo(ToDivergenceInfo(m)) == m
    ensures FromDivergenceInfo(d) == m <==> d == ToDivergenceInfo(m)
  {
  }

  /** The sampler arguments the program sets; every other argument keeps
      the engine's default. */
  datatype SamplerArgs = SamplerArgs(numTune: nat)

  /** Per-draw statistics; only the divergence report is read. */
  datatype SampleInfo = SampleInfo(divergence: Option<DivergenceInfo>)

  /** One successful `draw`: the engine's next state, the new position and
      its statistics. */
  datatype Draw<S> = Draw(next: S, position: seq<real>, info: SampleInfo)

  /** The sampling engine. `start(model, args, chain, seed)` is `new_sampler`
      with a generator seeded from `seed`; a failing step yields the error's
      text. */
  datatype Engine<!S> = Engine(
    start: (Models.Model, SamplerArgs, nat, nat) -> S,
    setPosition: (S, seq<real>) -> Result<S, string>,
    draw: S -> Result<Draw<S>, string>)

  /** `k` consecutive draws from state `s`, stopping at the first error. */
  function Draws<S>(eng: Engine<S>, s: S, k: nat): (r: Result<(S, seq<Draw<S>>), string>)
    ensures r.Ok? ==> |r.value.1| == k
    ensures r.Ok? ==> r.value.0 == (if k == 0 then s else r.value.1[k - 1].next)
    ensures r.Ok? && k > 0 ==> eng.draw(if k == 1 then s else r.value.1[k - 2].next) == Ok(r.value.1[k - 1])
  {
    if k == 0 then Ok((s, []))
    else
      match Draws(eng, s, k - 1)
      case Err(e) => Err(e)
      case Ok((t, steps)) =>
        match eng.draw(t)
        case Err(e) => Err(e)
        case Ok(d) => Ok((d.next, steps + [d]))
  }

  /** Each draw of a run of `k` starts from the state the previous one left
      (the first from `s`). */
  ghost predicate Chained<S>(eng: Engine<S>, s: S, steps: seq<Draw<S>>)
  {
    && (|steps| > 0 ==> eng.draw(s) == Ok(steps[0]))
    && (forall i :: 0 < i < |steps| ==> eng.draw(steps[i - 1].next) == Ok(steps[i]))
  }

  lemma {:induction false} DrawsChained<S>(eng: Engine<S>, s: S, k: nat)
    ensures Draws(eng, s, k).Ok? ==> Chained(eng, s, Draws(eng, s, k).value.1)
  {
    if k > 0 && Draws(eng, s, k).Ok? {
      DrawsChained(eng, s, k - 1);
      var steps := Draws(eng, s, k).value.1;
      assert steps[..k - 1] == Draws(eng, s, k - 1).value.1;
    }
  }

  /** Drawing `a + b` times is drawing `a` times and then `b` more from
      where the first run stopped; an error in the first part is final. */
  lemma {:induction false} DrawsSplit<S>(eng: Engine<S>, s: S, a: nat, b: nat)
    ensures Draws(eng, s, a).Err? ==> Draws(eng, s, a + b) == Draws(eng, s, a)
    ensures Draws(eng, s, a).Ok? ==>
      var first := Draws(eng, s, a).value;
      var rest := Draws(eng, first.0, b);
      && (rest.Err? ==> Draws(eng, s, a + b) == rest)
      && (rest.Ok? ==> Draws(eng, s, a + b) == Ok((rest.value.0, first.1 + rest.value.1)))
    decreases b
  {
    if b == 0 {
      if Draws(eng, s, a).Ok? {
        var first := Draws(eng, s, a).value;
        assert first.1 + [] == first.1;
      }
    } else {
      DrawsSplit(eng, s, a, b - 1);
      var n := a + b;
      assert n - 1 == a + (b - 1);
      if Draws(eng, s, a).Ok? {
        var first := Draws(eng, s, a).value;
        var t, xs := first.0, first.1;
        var prev := Draws(eng, t, b - 1);
        if prev.Ok? {
          var u, ys := prev.value.0, prev.value.1;
          assert Draws(eng, s, n - 1) == Ok((u, xs + ys));
          if eng.draw(u).Ok? {
            var d := eng.draw(u).value;
            assert Draws(eng, t, b) == Ok((d.next, ys + [d]));
            assert Draws(eng, s, n) == Ok((d.next, (xs + ys) + [d]));
            assert (xs + ys) + [d] == xs + (ys + [d]);
          }
        }
      }
    }
  }

  /** Once the draw after `i` steps fails, every longer run fails with the
      same error. */
  lemma {:induction false} DrawsStopAtError<S>(eng: Engine<S>, s: S, i: nat, k: nat, e: string)
    requires i < k
    requires Draws(eng, s, i).Ok? && eng.draw(Draws(eng, s, i).value.0) == Err(e)
    ensures Draws(eng, s, k) == Err(e)
    decreases k
  {
    if k > i + 1 {
      DrawsStopAtError(eng, s, i, k - 1, e);
    }
  }

  /** The positions of a run of draws, in order. */
  function Positions<S>(steps: seq<Draw<S>>): (r: seq<seq<real>>)
    ensures |r| == |steps|
    ensures forall i :: 0 <= i < |steps| ==> r[i] == steps[i].position
  {
    seq(|steps|, i requires 0 <= i < |steps| => steps[i].position)
  }

  /** The divergence reports of a run of draws, copied, in order of the
      draws that carry one. */
  function Divergences<S>(steps: seq<Draw<S>>): (r: seq<MyDivergenceInfo>)
    ensures |r| <= |steps|
  {
    if |steps| == 0 then []
    else
      var last := steps[|steps| - 1];
      Divergences(steps[..|steps| - 1])
        + (if last.info.divergence.Some? then [FromDivergenceInfo(last.info.divergence.value)] else [])
  }

  /** The indices of the draws that carry a divergence report, ascending. */
  function DivergentIndices<S>(steps: seq<Draw<S>>): seq<nat>
  {
    if |steps| == 0 then []
    else
      DivergentIndices(steps[..|steps| - 1])
        + (if steps[|steps| - 1].info.divergence.Some? then [|steps| - 1] else [])
  }

  /** The `j`-th report is the copy of the report of the `j`-th divergent
      draw; the divergent indices are exactly the draws that carry a report,
      in increasing order. */
  lemma {:induction false} DivergencesInOrder<S>(steps: seq<Draw<S>>)
    ensures var idx := DivergentIndices(steps);
      && |Divergences(steps)| == |idx|
      && (forall j :: 0 <= j < |idx| ==> idx[j] < |steps| && steps[idx[j]].info.divergence.Some?)
      && (forall j :: 0 <= j < |idx| ==>
            Divergences(steps)[j] == FromDivergenceInfo(steps[idx[j]].info.divergence.value))
      && (forall j, k :: 0 <= j < k < |idx| ==> idx[j] < idx[k])
      && (forall i :: 0 <= i < |steps| && steps[i].info.divergence.Some? ==> i in idx)
  {
    if |steps| > 0 {
      var n := |steps|;
      var init := steps[..n - 1];
      DivergencesInOrder(init);
      var idx0 := DivergentIndices(init);
      var idx := DivergentIndices(steps);
      var tail: seq<nat> := if steps[n - 1].info.divergence.Some? then [n - 1] else [];
      assert idx == idx0 + tail;
      forall j | 0 <= j < |idx0|
        ensures idx[j] == idx0[j] && idx0[j] < n - 1 && steps[idx0[j]] == init[idx0[j]]
      {
      }
      forall i | 0 <= i < n && steps[i].info.divergence.Some?
        ensures i in idx
      {
        if i < n - 1 {
          assert init[i] == steps[i];
          assert i in idx0;
        } else {
          assert idx[|idx| - 1] == i;
        }
      }
    }
  }

  const BurnIn: nat := 50

  const InitFailed: string := "Unrecoverable error during init"
  const BurnFailed: string := "Unrecoverable error during burning"
  const SampleFailed: string := "Unrecoverable error during sampling"

  /** The panic message of `Result::expect(msg)` on an error. */
  function Expect(msg: string, err: string): (r: string)
    ensures |r| > |msg| && r[..|msg|] == msg
  {
    msg + ": " + err
  }

  /** `vec![0f64; n]`. */
  function Zeros(n: nat): (r: seq<real>)
    ensures |r| == n && forall i :: 0 <= i < n ==> r[i] == 0.0
  {
    seq(n, i => 0.0)
  }

  /** The draws of one chain and the divergence reports among them. */
  datatype SampleRun = SampleRun(trace: seq<seq<real>>, stats: seq<MyDivergenceInfo>)

  /** The engine as `be_nuts` creates it: chain 0, the given tuning length,
      seeded with `seed`. */
  function Start<S>(model: Models.Model, eng: Engine<S>, numTune: nat, seed: nat): S
  {
    eng.start(model, SamplerArgs(numTune), 0, seed)
  }

  /** `be_nuts`: start the engine at the origin, discard `BurnIn` draws,
      then record `numSamples` draws and the divergence reports among them.
      Any engine error panics, with a message naming the phase. */
  function BeNuts<S>(model: Models.Model, eng: Engine<S>, numTune: nat, numSamples: nat, seed: nat): (r: Outcome<SampleRun>)
    ensures var init := eng.setPosition(Start(model, eng, numTune, seed), Zeros(Models.Dim(model)));
      && (init.Err? ==> r == Panicked(Expect(InitFailed, init.error)))
      && (init.Ok? ==>
            var all := Draws(eng, init.value, BurnIn + numSamples);
            && (r.Returned? <==> all.Ok?)
            && (all.Ok? ==>
                  && r.value.trace == Positions(all.value.1[BurnIn..])
                  && r.value.stats == Divergences(all.value.1[BurnIn..])))
    ensures r.Returned? ==> |r.value.trace| == numSamples && |r.value.stats| <= numSamples
  {
    var s0 := Start(model, eng, numTune, seed);
    match eng.setPosition(s0, Zeros(Models.Dim(model)))
    case Err(e) => Panicked(Expect(InitFailed, e))
    case Ok(s1) =>
      DrawsSplit(eng, s1, BurnIn, numSamples);
      match Draws(eng, s1, BurnIn)
      case Err(e) => Panicked(Expect(BurnFailed, e))
      case Ok((s2, burnt)) =>
        match Draws(eng, s2, numSamples)
        case Err(e) => Panicked(Expect(SampleFailed, e))
        case Ok((_, steps)) =>
          assert (burnt + steps)[BurnIn..] == steps;
          Returned(SampleRun(Positions(steps), Divergences(steps)))
  }

  /** The tuning length only reaches the engine's creation: two tuning
      lengths that create the same engine give the same run. */
  lemma TuningOnlyConfiguresEngine<S>(model: Models.Model, eng: Engine<S>, t1: nat, t2: nat, numSamples: nat, seed: nat)
    requires Start(model, eng, t1, seed) == Start(model, eng, t2, seed)
    ensures BeNuts(model, eng, t1, numSamples, seed) == BeNuts(model, eng, t2, numSamples, seed)
  {
  }

  /** Every divergence report belongs to a recorded draw, in draw order. */
  lemma StatsAreDivergentDraws<S>(model: Models.Model, eng: Engine<S>, numTune: nat, numSamples: nat, seed: nat)
    requires BeNuts(model, eng, numTune, numSamples, seed).Returned?
    ensures var init := eng.setPosition(Start(model, eng, numTune, seed), Zeros(Models.Dim(model)));
      var steps := Draws(eng, init.value, BurnIn + numSamples).value.1[BurnIn..];
      var run := BeNuts(model, eng, numTune, numSamples, seed).value;
      var idx := DivergentIndices(steps);
      && |run.stats| == |idx|
      && (forall j :: 0 <= j < |idx| ==>
            && idx[j] < |run.trace|
            && run.trace[idx[j]] == steps[idx[j]].position
            && steps[idx[j]].info.divergence.Some?
            && run.stats[j] == FromDivergenceInfo(steps[idx[j]].info.divergence.value))
      && (forall i :: 0 <= i < |steps| && steps[i].info.divergence.Some? ==> i in idx)
  {
    var init := eng.setPosition(Start(model, eng, numTune, seed), Zeros(Models.Dim(model)));
    var all := Draws(eng, init.value, BurnIn + numSamples);
    var steps := all.value.1[BurnIn..];
    var run := BeNuts(model, eng, numTune, numSamples, seed).value;
    assert run.trace == Positions(steps) && run.stats == Divergences(steps);
    DivergencesInOrder(steps);
  }

  /** The burn-in loop of `be_nuts`: `BurnIn` draws whose results are
      dropped; the state they leave, or the first error. */
  method BurnInLoop<S>(eng: Engine<S>, s1: S) returns (r: Result<S, string>)
    ensures r.Ok? <==> Draws(eng, s1, BurnIn).Ok?
    ensures r.Ok? ==> r.value == Draws(eng, s1, BurnIn).value.0
    ensures r.Err? ==> r.error == Draws(eng, s1, BurnIn).error
  {
    var s := s1;
    var i := 0;
    while i < BurnIn
      invariant 0 <= i <= BurnIn
      invariant Draws(eng, s1, i).Ok? && Draws(eng, s1, i).value.0 == s
    {
      var d := eng.draw(s);
      if d.Err? {
        DrawsStopAtError(eng, s1, i, BurnIn, d.error);
        return Err(d.error);
      }
      s := d.value.next;
      i := i + 1;
    }
    return Ok(s);
  }

  /** One more draw extends the run, its positions and its reports. */
  lemma SamplingStep<S>(eng: Engine<S>, s2: S, j: nat, s: S, steps: seq<Draw<S>>, d: Draw<S>)
    requires Draws(eng, s2, j) == Ok((s, steps)) && eng.draw(s) == Ok(d)
    ensures Draws(eng, s2, j + 1) == Ok((d.next, steps + [d]))
    ensures Positions(steps + [d]) == Positions(steps) + [d.position]
    ensures Divergences(steps + [d]) == Divergences(steps)
      + (if d.info.divergence.Some? then [FromDivergenceInfo(d.info.divergence.value)] else [])
  {
    assert (steps + [d])[..|steps|] == steps;
  }

  /** The sampling loop of `be_nuts`: `n` draws, each position appended to
      the trace and each divergence report, copied, to the statistics; or
      the first error. */
  method SamplingLoop<S>(eng: Engine<S>, s2: S, n: nat) returns (r: Result<SampleRun, string>)
    ensures r.Ok? <==> Draws(eng, s2, n).Ok?
    ensures r.Ok? ==> r.value == SampleRun(Positions(Draws(eng, s2, n).value.1), Divergences(Draws(eng, s2, n).value.1))
    ensures r.Err? ==> r.error == Draws(eng, s2, n).error
  {
    var s := s2;
    var trace := [];
    var stats := [];
    ghost var steps: seq<Draw<S>> := [];
    var j := 0;
    while j < n
      invariant 0 <= j <= n
      invariant Draws(eng, s2, j) == Ok((s, steps))
      invariant trace == Positions(steps) && stats == Divergences(steps)
    {
      var d := eng.draw(s);
      if d.Err? {
        DrawsStopAtError(eng, s2, j, n, d.error);
        return Err(d.error);
      }
      SamplingStep(eng, s2, j, s, steps, d.value);
      trace := trace + [d.value.position];
      if d.value.info.divergence.Some? {
        stats := stats + [FromDivergenceInfo(d.value.info.divergence.value)];
      }
      steps := steps + [d.value];
      s := d.value.next;
      j := j + 1;
    }
    return Ok(SampleRun(trace, stats));
  }

  /** `be_nuts` step by step, with the two loops of the program. */
  method RunBeNuts<S>(model: Models.Model, eng: Engine<S>, numTune: nat, numSamples: nat, seed: nat)
    returns (r: Outcome<SampleRun>)
    ensures r == BeNuts(model, eng, numTune, numSamples, seed)
  {
    var s0 := Start(model, eng, numTune, seed);
    var init := eng.setPosition(s0, Zeros(Models.Dim(model)));
    if init.Err? {
      return Panicked(Expect(InitFailed, init.error));
    }
    var burnt := BurnInLoop(eng, init.value);
    if burnt.Err? {
      return Panicked(Expect(BurnFailed, burnt.error));
    }
    var run := SamplingLoop(eng, burnt.value, numSamples);
    if run.Err? {
      return Panicked(Expect(SampleFailed, run.error));
    }
    return Returned(run.value);
  }
}
