/** Whole runs of nanobench's IterationLogic: which rounds are recorded, and from what the iterations of the
    next round are computed. */
module IterationRuns {
  import opened Common
  import opened IterationLogic

  /** The clock readings of an epoch that counts: at least two thirds of the target. */
  predicate TwoThirds(c: Config, i: Input) {
    3 * i.elapsed >= 2 * c.target
  }

  /** Measuring has begun: from the start, after a warmup that took long enough, or with the first
      round behind the warmup that did. */
  ghost predicate MeasuringAfter(c: Config, inputs: seq<Input>) {
    && !c.endless
    && (|| (c.warmup == 0 && c.epochIterations != 0)
        || (c.warmup != 0 && inputs != [] && TwoThirds(c, inputs[0]))
        || exists j :: (if c.warmup != 0 then 1 else 0) <= j < |inputs| && TwoThirds(c, inputs[j]))
  }

  /** The last of the rounds is recorded. */
  ghost predicate LastRecorded(c: Config, inputs: seq<Input>)
    requires inputs != []
  {
    && !c.endless
    && (|| (c.warmup == 0 && c.epochIterations != 0)
        || (c.warmup != 0 && |inputs| > 1 && TwoThirds(c, inputs[0]))
        || exists j :: (if c.warmup != 0 then 1 else 0) <= j < |inputs| && TwoThirds(c, inputs[j]))
  }

  /** A run that was still going before its last round. */
  ghost predicate GoingOn(c: Config, inputs: seq<Input>) {
    inputs != [] && AllAccepted(inputs) && Run(c, inputs[..|inputs| - 1]).outcome == Running
  }

  lemma {:induction false} MeasuringNext(c: Config, inputs: seq<Input>)
    requires inputs != []
    ensures var front, last := inputs[..|inputs| - 1], inputs[|inputs| - 1];
            MeasuringAfter(c, inputs) <==>
            && !c.endless
            && (MeasuringAfter(c, front) || TwoThirds(c, last))
  {
    var front := inputs[..|inputs| - 1];
    forall j | 0 <= j < |front| ensures front[j] == inputs[j] { }
  }

  /** The phase of a run that is going on. */
  ghost predicate PhaseIs(c: Config, inputs: seq<Input>, s: State) {
    s.phase == if c.endless then Endless else if MeasuringAfter(c, inputs) then Measuring
               else if inputs == [] && c.warmup != 0 then Warmup else Upscaling
  }

  lemma {:induction false} PhaseOfRun(c: Config, inputs: seq<Input>)
    requires AllAccepted(inputs) && Run(c, inputs).outcome == Running
    ensures PhaseIs(c, inputs, Run(c, inputs))
  {
    if inputs != [] {
      var front := inputs[..|inputs| - 1];
      MeasuringNext(c, inputs);
      if Run(c, front).outcome == Running { PhaseOfRun(c, front); }
      hide MeasuringAfter;
      hide BestNumIters;
    }
  }

  /** A round is recorded, with its reading and the iterations it ran, exactly if the settings fix them
      and there is no warmup, or a round behind the warmup, or else the warmup itself, took two thirds
      of the target. */
  lemma {:induction false} RecordedIff(c: Config, inputs: seq<Input>)
    requires GoingOn(c, inputs)
    ensures var before, last := Run(c, inputs[..|inputs| - 1]), inputs[|inputs| - 1];
            Run(c, inputs).results ==
            if LastRecorded(c, inputs) then before.results + [Epoch(last.elapsed, before.numIters)] else before.results
  {
    var front := inputs[..|inputs| - 1];
    PhaseOfRun(c, front);
    MeasuringNext(c, inputs);
    hide BestNumIters;
  }

  // ----- the iterations of the next round -----

  /** Iterations that would take as long as the target if `iters` take `elapsed`, but at least
      minEpochIterations, and up to a fifth more. */
  function Aim(c: Config, elapsed: nat, iters: nat, noise: real): real
    requires elapsed > 0
  {
    var fitting := (c.target * iters) as real / elapsed as real;
    (if fitting < c.minEpochIterations as real then c.minEpochIterations as real else fitting) * (1.0 + noise / 5.0)
  }

  /** n is x, rounded. */
  predicate Rounded(n: nat, x: real) {
    x - 0.5 < n as real <= x + 0.5
  }

  lemma {:induction false} QuotientFirst(t: nat, e: nat, n: nat)
    requires e > 0
    ensures (t as real) / (e as real) * (n as real) == (t * n) as real / e as real
  {
    var q := (t as real) / (e as real);
    assert q * (e as real) == t as real;
    assert (q * (n as real)) * (e as real) == (t as real) * (n as real);
    assert (t * n) as real == (t as real) * (n as real);
  }

  lemma {:induction false} BestIsAim(c: Config, elapsed: nat, iters: nat, noise: real)
    requires 0.0 <= noise && BestNumIters(c, elapsed, iters, noise).Iters?
    ensures elapsed > 0 && Rounded(BestNumIters(c, elapsed, iters, noise).n, Aim(c, elapsed, iters, noise))
  {
    QuotientFirst(c.target, elapsed, iters);
    assert 0.2 * noise == noise / 5.0;
    var x := BestReal(c, elapsed, iters, noise);
    assert x == Aim(c, elapsed, iters, noise);
    FloorRounds(x);
    BestRealAtLeast(c, elapsed, iters, noise);
  }

  lemma {:induction false} FloorRounds(x: real)
    ensures x - 0.5 < (x + 0.5).Floor as real <= x + 0.5
  {
  }

  lemma {:induction false} ResultsMeanMeasuring(c: Config, inputs: seq<Input>)
    requires AllAccepted(inputs) && Run(c, inputs).results != []
    ensures !c.endless && MeasuringAfter(c, inputs)
  {
    var front := inputs[..|inputs| - 1];
    MeasuringNext(c, inputs);
    if Run(c, front).results != [] {
      ResultsMeanMeasuring(c, front);
    } else {
      assert GoingOn(c, inputs);
      RecordedIff(c, inputs);
    }
    hide MeasuringAfter;
    hide BestNumIters;
  }

  lemma {:induction false} StillRunning(c: Config, inputs: seq<Input>)
    requires inputs != [] && AllAccepted(inputs) && Run(c, inputs).outcome == Running
    ensures GoingOn(c, inputs)
  {
  }

  /** What a recording round does to the count. */
  lemma {:induction false} RecordingStep(c: Config, s: State, i: Input)
    requires Accepts(i) && s.outcome == Running && c.epochIterations == 0 && Step(c, s, i).outcome == Running
    requires s.phase == Measuring || (s.phase == Upscaling && TwoThirds(c, i))
    ensures var t := Step(c, s, i); var b := BestNumIters(c, t.totalElapsed, t.totalNumIters, i.noise);
            b.Iters? && t.numIters == b.n
  {
    hide BestNumIters;
  }

  lemma {:induction false} RecordingPhase(c: Config, inputs: seq<Input>)
    requires AllAccepted(inputs) && Run(c, inputs).outcome == Running && Run(c, inputs).results != []
    ensures inputs != [] && GoingOn(c, inputs)
    ensures var s := Run(c, inputs[..|inputs| - 1]);
            s.outcome == Running && (s.phase == Measuring || (s.phase == Upscaling && TwoThirds(c, inputs[|inputs| - 1])))
  {
    var front := inputs[..|inputs| - 1];
    StillRunning(c, inputs);
    ResultsMeanMeasuring(c, inputs);
    MeasuringNext(c, inputs);
    PhaseOfRun(c, front);
    if front == [] && c.warmup != 0 { FirstRoundIsNoEpoch(c, inputs); }
    hide MeasuringAfter;
    hide BestNumIters;
  }

  lemma {:induction false} FirstRoundIsNoEpoch(c: Config, inputs: seq<Input>)
    requires |inputs| == 1 && AllAccepted(inputs) && c.warmup != 0
    ensures Run(c, inputs).results == []
  {
    assert inputs[..0] == [];
    hide BestNumIters;
  }

  lemma {:induction false} RunIsStep(c: Config, inputs: seq<Input>)
    requires AllAccepted(inputs) && inputs != []
    ensures Run(c, inputs) == Step(c, Run(c, inputs[..|inputs| - 1]), inputs[|inputs| - 1])
  {
  }

  lemma {:induction false} TotalsAreSums(c: Config, inputs: seq<Input>)
    requires c.Valid() && AllAccepted(inputs) && SumIters(Run(c, inputs).results) < U64
    ensures var s := Run(c, inputs); s.totalElapsed == SumElapsed(s.results) && s.totalNumIters == SumIters(s.results)
  {
    RunKeepsInv(c, inputs);
    hide Run;
  }

  lemma {:induction false} LastIsAccepted(inputs: seq<Input>)
    requires AllAccepted(inputs) && inputs != []
    ensures 0.0 <= inputs[|inputs| - 1].noise
  {
  }

  /** After every recorded epoch, unless the iterations are fixed, the next count is the aim, rounded,
      that all recorded epochs together give: the sum of their times and of their iterations. */
  lemma {:induction false} CountFromTotals(c: Config, inputs: seq<Input>)
    requires c.Valid() && c.epochIterations == 0 && AllAccepted(inputs)
    requires Run(c, inputs).outcome == Running && Run(c, inputs).results != [] && SumIters(Run(c, inputs).results) < U64
    ensures var s := Run(c, inputs);
            && inputs != [] && SumElapsed(s.results) > 0
            && Rounded(s.numIters, Aim(c, SumElapsed(s.results), SumIters(s.results), inputs[|inputs| - 1].noise))
  {
    hide Run;
    hide Step;
    hide MeasuringAfter;
    hide LastRecorded;
    hide BestNumIters;
    hide Aim;
    hide Rounded;
    hide SumElapsed;
    hide SumIters;
    hide Steady;
    hide GoingOn;
    RecordingPhase(c, inputs);
    RunIsStep(c, inputs);
    TotalsAreSums(c, inputs);
    LastIsAccepted(inputs);
    var s, last := Run(c, inputs), inputs[|inputs| - 1];
    RecordingStep(c, Run(c, inputs[..|inputs| - 1]), last);
    BestIsAim(c, s.totalElapsed, s.totalNumIters, last.noise);
  }

  // ----- a steady clock -----

  /** Every iteration takes time t, and no noise is drawn. */
  ghost predicate Steady(c: Config, t: nat, inputs: seq<Input>)
    requires AllAccepted(inputs)
  {
    forall i {:trigger inputs[i]} :: 0 <= i < |inputs| ==>
      inputs[i].noise == 0.0 && inputs[i].elapsed == t * Run(c, inputs[..i]).numIters
  }

  lemma {:induction false} SteadyFront(c: Config, t: nat, inputs: seq<Input>)
    requires AllAccepted(inputs) && inputs != [] && Steady(c, t, inputs)
    ensures AllAccepted(inputs[..|inputs| - 1]) && Steady(c, t, inputs[..|inputs| - 1])
    ensures var last := inputs[|inputs| - 1]; last.noise == 0.0 && last.elapsed == t * Run(c, inputs[..|inputs| - 1]).numIters
  {
    hide Run;
    var front := inputs[..|inputs| - 1];
    forall i | 0 <= i < |front| ensures front[i].noise == 0.0 && front[i].elapsed == t * Run(c, front[..i]).numIters {
      assert front[..i] == inputs[..i] && front[i] == inputs[i];
    }
  }

  lemma {:induction false} SumsGrow(es: seq<Epoch>, e: Epoch, t: nat)
    requires SumElapsed(es) == t * SumIters(es) && e.elapsed == t * e.iters
    ensures SumElapsed(es + [e]) == t * SumIters(es + [e])
  {
    assert (es + [e])[..|es|] == es;
    assert t * (SumIters(es) + e.iters) == t * SumIters(es) + t * e.iters;
  }

  lemma {:induction false} EndedStaysAsItIs(c: Config, inputs: seq<Input>)
    requires AllAccepted(inputs) && inputs != [] && !GoingOn(c, inputs)
    ensures Run(c, inputs) == Run(c, inputs[..|inputs| - 1])
  {
  }

  lemma {:induction false} NoEpochsYet(c: Config)
    ensures Run(c, []).results == [] && SumElapsed([]) == SumIters([]) == 0
  {
  }

  lemma {:induction false} SteadySums(c: Config, t: nat, inputs: seq<Input>)
    requires AllAccepted(inputs) && Steady(c, t, inputs)
    ensures SumElapsed(Run(c, inputs).results) == t * SumIters(Run(c, inputs).results)
  {
    hide Run;
    hide Step;
    hide MeasuringAfter;
    hide LastRecorded;
    hide BestNumIters;
    hide Aim;
    hide Rounded;
    hide SumElapsed;
    hide SumIters;
    hide Steady;
    hide GoingOn;
    if inputs == [] {
      NoEpochsYet(c);
    } else {
      var front, last := inputs[..|inputs| - 1], inputs[|inputs| - 1];
      SteadyFront(c, t, inputs);
      SteadySums(c, t, front);
      if GoingOn(c, inputs) {
        RecordedIff(c, inputs);
        if LastRecorded(c, inputs) { SumsGrow(Run(c, front).results, Epoch(last.elapsed, Run(c, front).numIters), t); }
      } else {
        EndedStaysAsItIs(c, inputs);
      }
    }
  }

  lemma {:induction false} CommonFactor(target: nat, t: nat, n: nat)
    requires t > 0 && n > 0
    ensures t * n > 0 && (target * n) as real / (t * n) as real == target as real / t as real
  {
    var q := target as real / t as real;
    assert q * (t as real) == target as real;
    assert (t * n) as real == (t as real) * (n as real) && (target * n) as real == (target as real) * (n as real);
    assert q * (t * n) as real == (target * n) as real;
  }

  /** The iterations that fit the target, but at least minEpochIterations. */
  function Fitting(c: Config, t: nat): real
    requires t > 0
  {
    var fitting := c.target as real / t as real;
    if fitting < c.minEpochIterations as real then c.minEpochIterations as real else fitting
  }

  lemma {:induction false} AimIsFitting(c: Config, t: nat, n: nat, e: nat)
    requires t > 0 && e == t * n && e > 0
    ensures Aim(c, e, n, 0.0) == Fitting(c, t)
  {
    CommonFactor(c.target, t, n);
  }

  /** Then, from the first recorded epoch on, every count is that, rounded. */
  lemma {:induction false} SteadyCount(c: Config, t: nat, inputs: seq<Input>)
    requires c.Valid() && c.epochIterations == 0 && t > 0 && AllAccepted(inputs) && Steady(c, t, inputs)
    requires Run(c, inputs).outcome == Running && Run(c, inputs).results != [] && SumIters(Run(c, inputs).results) < U64
    ensures Rounded(Run(c, inputs).numIters, Fitting(c, t))
  {
    hide Run;
    hide Step;
    hide MeasuringAfter;
    hide LastRecorded;
    hide BestNumIters;
    hide Aim;
    hide Rounded;
    hide SumElapsed;
    hide SumIters;
    hide Steady;
    hide GoingOn;
    var es := Run(c, inputs).results;
    CountFromTotals(c, inputs);
    SteadyFront(c, t, inputs);
    SteadySums(c, t, inputs);
    AimIsFitting(c, t, SumIters(es), SumElapsed(es));
  }

  // ----- before anything is recorded -----

  /** The iterations of the first round. */
  lemma {:induction false} FirstCount(c: Config)
    ensures Run(c, []).numIters ==
            if c.endless then U64 - 1 else if c.warmup != 0 then c.warmup
            else if c.epochIterations != 0 then c.epochIterations else c.minEpochIterations
  {
  }

  lemma {:induction false} UnrecordedStep(c: Config, s: State, i: Input)
    requires Accepts(i) && s.outcome == Running && !TwoThirds(c, i) && (s.phase == Warmup || s.phase == Upscaling)
    ensures var t := Step(c, s, i);
            if 10 * i.elapsed < c.target
            then t.outcome == Running ==> t.numIters == 10 * s.numIters % U64
            else t.outcome == Running ==> BestNumIters(c, i.elapsed, s.numIters, i.noise) == Iters(t.numIters)
  {
    hide BestNumIters;
  }

  lemma {:induction false} NotYetMeasuring(c: Config, inputs: seq<Input>)
    requires GoingOn(c, inputs) && !c.endless && !MeasuringAfter(c, inputs)
    ensures !TwoThirds(c, inputs[|inputs| - 1])
    ensures var s := Run(c, inputs[..|inputs| - 1]); s.phase == Warmup || s.phase == Upscaling
  {
    MeasuringNext(c, inputs);
    PhaseOfRun(c, inputs[..|inputs| - 1]);
    hide MeasuringAfter;
    hide Run;
  }

  /** Until measuring begins a round below a tenth of the target is followed by ten times as many
      iterations, and any other by the aim, rounded, that this round alone gives. */
  lemma {:induction false} CountWhileUpscaling(c: Config, inputs: seq<Input>)
    requires GoingOn(c, inputs) && !c.endless && !MeasuringAfter(c, inputs) && Run(c, inputs).outcome == Running
    ensures var n, last := Run(c, inputs[..|inputs| - 1]).numIters, inputs[|inputs| - 1];
            if 10 * last.elapsed < c.target then Run(c, inputs).numIters == 10 * n % U64
            else last.elapsed > 0 && Rounded(Run(c, inputs).numIters, Aim(c, last.elapsed, n, last.noise))
  {
    var s, last := Run(c, inputs[..|inputs| - 1]), inputs[|inputs| - 1];
    NotYetMeasuring(c, inputs);
    RunIsStep(c, inputs);
    UnrecordedStep(c, s, last);
    if 10 * last.elapsed >= c.target { BestIsAim(c, last.elapsed, s.numIters, last.noise); }
    hide Run;
    hide Step;
    hide BestNumIters;
    hide Aim;
    hide Rounded;
    hide MeasuringAfter;
  }

  /** A warmup of two thirds of the target is not recorded, but gives the first count by itself. */
  lemma {:induction false} CountAfterWarmup(c: Config, i: Input)
    requires c.warmup != 0 && !c.endless && Accepts(i) && TwoThirds(c, i) && Run(c, [i]).outcome == Running
    ensures i.elapsed > 0 && Rounded(Run(c, [i]).numIters, Aim(c, i.elapsed, c.warmup, i.noise))
  {
    assert [i][..0] == [];
    assert BestNumIters(c, i.elapsed, c.warmup, i.noise) == Iters(Run(c, [i]).numIters);
    BestIsAim(c, i.elapsed, c.warmup, i.noise);
    hide BestNumIters;
    hide Aim;
  }
}
