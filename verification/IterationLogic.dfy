/** nanobench's IterationLogic: how many iterations the next epoch runs, and when a run stops. */
module IterationLogic {
  import opened Common

  const U64_MAX: nat := U64 - 1

  /** The Bench settings a run depends on; times in nanoseconds, `target` already clamped. */
  datatype Config = Config(target: nat, epochs: nat, minEpochIterations: nat, epochIterations: nat,
                           warmup: nat, endless: bool)
  {
    /** The setter never stores 0 as minEpochIterations; all counts are uint64_t. */
    predicate Valid() {
      0 < minEpochIterations < U64 && epochIterations < U64 && warmup < U64 && epochs < U64
    }
  }

  datatype Phase = Warmup | Upscaling | Measuring | Endless

  /** One recorded epoch. */
  datatype Epoch = Epoch(elapsed: nat, iters: nat)

  /** Why calcBestNumIters has no value: the quotient has a zero divisor, or the cast to
      uint64_t is out of range.  Either is undefined behaviour in the source. */
  datatype Best = Iters(n: nat) | DivByZero | CastOverflow

  datatype Outcome = Running | Finished | IterationsOverflow | Undefined(cause: Best)

  datatype State = State(phase: Phase, numIters: nat, totalElapsed: nat, totalNumIters: nat,
                         results: seq<Epoch>, outcome: Outcome)

  /** A clock reading and the random noise drawn with it. */
  datatype Input = Input(elapsed: nat, noise: real)

  predicate Accepts(i: Input) {
    0.0 <= i.noise < 1.0
  }

  function Init(c: Config): State {
    if c.endless then State(Endless, U64_MAX, 0, 0, [], Running)
    else if c.warmup != 0 then State(Warmup, c.warmup, 0, 0, [], Running)
    else if c.epochIterations != 0 then State(Measuring, c.epochIterations, 0, 0, [], Running)
    else State(Upscaling, c.minEpochIterations, 0, 0, [], Running)
  }

  /** target / elapsed * iters, at least minEpochIterations, with up to 20% noise. */
  function BestReal(c: Config, elapsed: nat, iters: nat, noise: real): real
    requires elapsed > 0
  {
    var newIters := (c.target as real) / (elapsed as real) * (iters as real);
    var atLeast := if newIters < c.minEpochIterations as real then c.minEpochIterations as real else newIters;
    atLeast * (1.0 + 0.2 * noise)
  }

  function BestNumIters(c: Config, elapsed: nat, iters: nat, noise: real): Best
    requires 0.0 <= noise
  {
    if elapsed == 0 then DivByZero
    else
      BestRealAtLeast(c, elapsed, iters, noise);
      var n := (BestReal(c, elapsed, iters, noise) + 0.5).Floor;
      if n < U64 then Iters(n) else CastOverflow
  }

  lemma {:induction false} BestRealAtLeast(c: Config, elapsed: nat, iters: nat, noise: real)
    requires elapsed > 0 && 0.0 <= noise
    ensures BestReal(c, elapsed, iters, noise) >= c.minEpochIterations as real
    ensures BestReal(c, elapsed, iters, noise) >= (c.target as real) / (elapsed as real) * (iters as real)
  {
    var newIters := (c.target as real) / (elapsed as real) * (iters as real);
    var atLeast := if newIters < c.minEpochIterations as real then c.minEpochIterations as real else newIters;
    assert atLeast * (1.0 + 0.2 * noise) == atLeast + atLeast * (0.2 * noise);
    assert atLeast * (0.2 * noise) >= 0.0;
  }

  predicate CloseEnough(c: Config, elapsed: nat) {
    elapsed * 3 >= c.target * 2
  }

  function SetIters(s: State, b: Best): State {
    match b
    case Iters(n) => s.(numIters := n)
    case _ => s.(outcome := Undefined(b))
  }

  /** Ten times the iterations when far below target, in wrapping uint64_t arithmetic; else `best`. */
  function Upscale(c: Config, s: State, elapsed: nat, best: Best): State {
    if elapsed * 10 < c.target then
      if s.numIters * 10 % U64 < s.numIters then s.(numIters := 0, outcome := IterationsOverflow)
      else s.(numIters := s.numIters * 10 % U64)
    else
      SetIters(s, best)
  }

  function Record(s: State, elapsed: nat): State {
    s.(totalElapsed := s.totalElapsed + elapsed,
       totalNumIters := (s.totalNumIters + s.numIters) % U64,
       results := s.results + [Epoch(elapsed, s.numIters)])
  }

  /** The one call of calcBestNumIters a round can make: on the totals once the epoch is
      recorded, on the single epoch otherwise. */
  function BestFor(c: Config, s: State, i: Input): Best
    requires Accepts(i)
  {
    if s.phase == Measuring || (s.phase == Upscaling && CloseEnough(c, i.elapsed)) then
      var r := Record(s, i.elapsed);
      BestNumIters(c, r.totalElapsed, r.totalNumIters, i.noise)
    else
      BestNumIters(c, i.elapsed, s.numIters, i.noise)
  }

  function AddToPhase(c: Config, s: State, elapsed: nat, best: Best): State {
    match s.phase
    case Warmup =>
      if CloseEnough(c, elapsed) then SetIters(s.(phase := Measuring), best)
      else Upscale(c, s.(phase := Upscaling), elapsed, best)
    case Upscaling =>
      if CloseEnough(c, elapsed) then SetIters(Record(s, elapsed).(phase := Measuring), best)
      else Upscale(c, s, elapsed, best)
    case Measuring =>
      if c.epochIterations != 0 then Record(s, elapsed).(numIters := c.epochIterations)
      else SetIters(Record(s, elapsed), best)
    case Endless => s.(numIters := U64_MAX)
  }

  /** The check for completion at the end of add(). */
  function Complete(c: Config, t: State): State {
    if t.outcome.Undefined? then t
    else if |t.results| == c.epochs then t.(numIters := 0, outcome := Finished)
    else t
  }

  /** One round of Bench::run: an epoch was measured and add() is called. */
  function Step(c: Config, s: State, i: Input): State
    requires Accepts(i)
  {
    if s.outcome != Running then s
    else Complete(c, AddToPhase(c, s, i.elapsed, BestFor(c, s, i)))
  }

  /** The state after a sequence of rounds, each with its clock reading. */
  function Run(c: Config, inputs: seq<Input>): State
    requires forall i :: 0 <= i < |inputs| ==> Accepts(inputs[i])
  {
    if inputs == [] then Init(c)
    else Step(c, Run(c, inputs[..|inputs| - 1]), inputs[|inputs| - 1])
  }

  ghost predicate AllAccepted(inputs: seq<Input>) {
    forall i :: 0 <= i < |inputs| ==> Accepts(inputs[i])
  }

  // ----- what every reachable state keeps -----

  function SumElapsed(es: seq<Epoch>): nat {
    if es == [] then 0 else SumElapsed(es[..|es| - 1]) + es[|es| - 1].elapsed
  }

  function SumIters(es: seq<Epoch>): nat {
    if es == [] then 0 else SumIters(es[..|es| - 1]) + es[|es| - 1].iters
  }

  ghost predicate Inv(c: Config, s: State) {
    && (s.outcome == Running ==> 0 < s.numIters < U64)
    && (s.outcome.Finished? || s.outcome.IterationsOverflow? ==> s.numIters == 0)
    && (s.outcome.Finished? ==> |s.results| == c.epochs)
    && (s.outcome.IterationsOverflow? ==> s.results == [])
    && (s.outcome == Running && s.phase != Endless ==> |s.results| != c.epochs || s.results == [])
    && (c.epochs > 0 && s.phase != Endless ==>
          |s.results| <= c.epochs && (s.outcome == Running ==> |s.results| < c.epochs))
    && (s.phase != Measuring ==> s.results == [])
    && (s.phase == Endless <==> c.endless)
    && (s.phase == Warmup ==> c.warmup != 0)
    && Sums(s.results, s.totalElapsed, s.totalNumIters)
  }

  /** The running totals are the sums over the recorded epochs, the count modulo 2^64. */
  ghost predicate Sums(es: seq<Epoch>, elapsed: nat, iters: nat) {
    && elapsed == SumElapsed(es) && iters == SumIters(es) % U64
    && (forall k :: 0 <= k < |es| ==> es[k].iters > 0)
  }

  lemma {:induction false} RecordKeepsSums(s: State, elapsed: nat)
    requires Sums(s.results, s.totalElapsed, s.totalNumIters) && s.numIters > 0
    ensures var r := Record(s, elapsed); Sums(r.results, r.totalElapsed, r.totalNumIters)
  {
    var r := Record(s, elapsed);
    assert r.results[..|s.results|] == s.results;
  }

  lemma {:induction false} BestIsPositive(c: Config, elapsed: nat, iters: nat, noise: real)
    requires c.Valid() && 0.0 <= noise
    ensures var b := BestNumIters(c, elapsed, iters, noise); b.Iters? ==> 0 < b.n < U64
  {
    if elapsed > 0 {
      BestRealAtLeast(c, elapsed, iters, noise);
    }
  }

  lemma {:induction false} UpscaleKeepsInv(c: Config, s: State, elapsed: nat, b: Best)
    requires c.Valid() && Inv(c, s) && s.outcome == Running && s.phase == Upscaling && (b.Iters? ==> 0 < b.n < U64)
    ensures Inv(c, Complete(c, Upscale(c, s, elapsed, b)))
  {
  }

  /** An epoch is recorded and measuring begins or goes on. */
  lemma {:induction false} RecordKeepsInv(c: Config, s: State, elapsed: nat, b: Best)
    requires c.Valid() && Inv(c, s) && s.outcome == Running && (b.Iters? ==> 0 < b.n < U64)
    requires s.phase == Measuring || (s.phase == Upscaling && CloseEnough(c, elapsed))
    ensures Inv(c, Complete(c, AddToPhase(c, s, elapsed, b)))
  {
    if s.phase == Measuring { MeasuringKeepsInv(c, s, elapsed, b); } else { UpscaledKeepsInv(c, s, elapsed, b); }
    hide *;
  }

  lemma {:induction false} MeasuringKeepsInv(c: Config, s: State, elapsed: nat, b: Best)
    requires c.Valid() && Inv(c, s) && s.outcome == Running && (b.Iters? ==> 0 < b.n < U64) && s.phase == Measuring
    ensures Inv(c, Complete(c, AddToPhase(c, s, elapsed, b)))
  {
    RecordKeepsSums(s, elapsed);
    hide Sums;
  }

  lemma {:induction false} UpscaledKeepsInv(c: Config, s: State, elapsed: nat, b: Best)
    requires c.Valid() && Inv(c, s) && s.outcome == Running && (b.Iters? ==> 0 < b.n < U64)
    requires s.phase == Upscaling && CloseEnough(c, elapsed)
    ensures Inv(c, Complete(c, AddToPhase(c, s, elapsed, b)))
  {
    RecordKeepsSums(s, elapsed);
    hide Sums;
  }

  lemma {:induction false} AddKeepsInv(c: Config, s: State, elapsed: nat, b: Best)
    requires c.Valid() && Inv(c, s) && s.outcome == Running && (b.Iters? ==> 0 < b.n < U64)
    ensures Inv(c, Complete(c, AddToPhase(c, s, elapsed, b)))
  {
    hide Sums;
    if !CloseEnough(c, elapsed) && (s.phase == Warmup || s.phase == Upscaling) {
      UpscaleKeepsInv(c, s.(phase := Upscaling), elapsed, b);
    } else if s.phase == Measuring || s.phase == Upscaling {
      RecordKeepsInv(c, s, elapsed, b);
    }
  }

  lemma {:induction false} StepKeepsInv(c: Config, s: State, i: Input)
    requires c.Valid() && Accepts(i) && Inv(c, s)
    ensures Inv(c, Step(c, s, i))
  {
    if s.outcome == Running {
      var r := Record(s, i.elapsed);
      BestIsPositive(c, i.elapsed, s.numIters, i.noise);
      BestIsPositive(c, r.totalElapsed, r.totalNumIters, i.noise);
      AddKeepsInv(c, s, i.elapsed, BestFor(c, s, i));
    }
  }

  lemma {:induction false} RunKeepsInv(c: Config, inputs: seq<Input>)
    requires c.Valid() && AllAccepted(inputs)
    ensures Inv(c, Run(c, inputs))
  {
    if inputs != [] {
      RunKeepsInv(c, inputs[..|inputs| - 1]);
      StepKeepsInv(c, Run(c, inputs[..|inputs| - 1]), inputs[|inputs| - 1]);
    }
  }

  /** Result::sumProduct(iterations, elapsed): the recorded elapsed is time per iteration. */
  function SumProduct(es: seq<Epoch>): real
    requires forall k :: 0 <= k < |es| ==> es[k].iters > 0
  {
    if es == [] then 0.0
    else
      var e := es[|es| - 1];
      SumProduct(es[..|es| - 1]) + (e.iters as real) * ((e.elapsed as real) / (e.iters as real))
  }

  lemma {:induction false} SumProductIsTotal(es: seq<Epoch>)
    requires forall k :: 0 <= k < |es| ==> es[k].iters > 0
    ensures SumProduct(es) == SumElapsed(es) as real
  {
    if es != [] {
      SumProductIsTotal(es[..|es| - 1]);
    }
  }

  /** The "total" column is the time measured, in every run under every clock. */
  lemma {:induction false} TotalColumnIsMeasuredTime(c: Config, inputs: seq<Input>)
    requires c.Valid() && AllAccepted(inputs)
    ensures var s := Run(c, inputs);
            && (forall k :: 0 <= k < |s.results| ==> s.results[k].iters > 0)
            && SumProduct(s.results) == s.totalElapsed as real == SumElapsed(s.results) as real
  {
    RunKeepsInv(c, inputs);
    SumProductIsTotal(Run(c, inputs).results);
  }

  // ----- termination under every clock -----

  lemma {:induction false} TenfoldGrows(x: nat)
    requires 0 < x < U64
    ensures x * 10 % U64 != x
  {
  }

  lemma {:induction false} PositiveFactor(a: real, e: real)
    requires e > 0.0 && a * e > 0.0
    ensures a > 0.0
  {
  }

  lemma {:induction false} QuotientGrows(t: real, e: real, x: real)
    requires e > 0.0 && 3.0 * e < 2.0 * t && x >= 0.0
    ensures t / e * x >= 1.5 * x
  {
    var q := t / e;
    assert q * e == t;
    PositiveFactor(q - 1.5, e);
    assert (q - 1.5) * x >= 0.0;
  }

  /** An upscaling step that goes on has strictly more iterations: ten times modulo 2^64 with a
      wrap that was not noticed still grows, and a measured quotient above 1.5 does. */
  lemma {:induction false} UpscaleGrows(c: Config, s: State, i: Input)
    requires Accepts(i) && s.outcome == Running && 0 < s.numIters < U64 && !CloseEnough(c, i.elapsed)
    ensures var t := Upscale(c, s, i.elapsed, BestNumIters(c, i.elapsed, s.numIters, i.noise));
            t.outcome == Running ==> s.numIters < t.numIters < U64
  {
    if i.elapsed * 10 < c.target {
      TenfoldGrows(s.numIters);
    } else {
      var e, t, x := i.elapsed as real, c.target as real, s.numIters as real;
      BestRealAtLeast(c, i.elapsed, s.numIters, i.noise);
      QuotientGrows(t, e, x);
      assert x >= 1.0 && x + 1.0 == (s.numIters + 1) as real;
      assert BestReal(c, i.elapsed, s.numIters, i.noise) >= 1.5 * x;
    }
  }

  /** Rounds left at most, for a run that stops. */
  function Fuel(c: Config, s: State): nat
    requires s.numIters < U64
  {
    if s.outcome != Running then 0
    else match s.phase
      case Warmup => U64 + c.epochs + 2
      case Upscaling => U64 - s.numIters + c.epochs + 1
      case Measuring => if |s.results| <= c.epochs then c.epochs - |s.results| + 1 else 0
      case Endless => 1
  }

  /** An endless run does not stop, unless no epochs are asked for; a run of no epochs stops
      after its first round only if that round records nothing. */
  predicate Stops(c: Config) {
    if c.epochs == 0 then c.endless || c.warmup != 0 else !c.endless
  }

  ghost predicate StopsFrom(c: Config, s: State) {
    Stops(c) && (c.epochs == 0 && s.outcome == Running ==> s.phase == Warmup || s.phase == Endless)
  }

  lemma {:induction false} StepBurnsFuel(c: Config, s: State, i: Input)
    requires c.Valid() && Accepts(i) && Inv(c, s) && StopsFrom(c, s) && s.outcome == Running
    ensures var t := Step(c, s, i);
            StopsFrom(c, t) && (t.outcome == Running ==> t.numIters < U64 && Fuel(c, t) < Fuel(c, s))
  {
    StepKeepsInv(c, s, i);
    if !CloseEnough(c, i.elapsed) && (s.phase == Warmup || s.phase == Upscaling) {
      UpscaleGrows(c, s.(phase := Upscaling), i);
    }
  }

  lemma {:induction false} RunBurnsFuel(c: Config, inputs: seq<Input>)
    requires c.Valid() && AllAccepted(inputs) && Stops(c)
    ensures var s := Run(c, inputs);
            StopsFrom(c, s) && (s.outcome == Running ==> s.numIters < U64 && |inputs| + Fuel(c, s) <= Fuel(c, Init(c)))
  {
    if inputs != [] {
      var front := inputs[..|inputs| - 1];
      RunBurnsFuel(c, front);
      RunKeepsInv(c, front);
      if Run(c, front).outcome == Running {
        StepBurnsFuel(c, Run(c, front), inputs[|inputs| - 1]);
      }
    }
  }

  /** Some number of rounds suffices whatever the clock reports. */
  ghost predicate Terminates(c: Config) {
    exists bound: nat :: StopsWithin(c, bound)
  }

  ghost predicate StopsWithin(c: Config, bound: nat) {
    forall inputs :: AllAccepted(inputs) && |inputs| > bound ==> Run(c, inputs).outcome != Running
  }

  /** A clock that always reports the target (or one tick), without noise. */
  function Tick(c: Config): nat {
    if c.target == 0 then 1 else c.target
  }

  function Steady(c: Config, n: nat): seq<Input> {
    seq(n, _ => Input(Tick(c), 0.0))
  }

  /** ... keeps every other run going for ever, at a constant count. */
  lemma {:induction false} SteadyClockNeverStops(c: Config, n: nat)
    requires c.Valid() && !Stops(c)
    ensures AllAccepted(Steady(c, n)) && Run(c, Steady(c, n)).outcome == Running
    ensures var s := Run(c, Steady(c, n));
            && s.phase == (if n > 0 && !c.endless then Measuring else Init(c).phase)
            && s.numIters == Init(c).numIters && |s.results| == (if c.endless then 0 else n)
            && s.totalElapsed == |s.results| * Tick(c) && s.totalNumIters <= |s.results| * s.numIters
  {
    if n > 0 {
      assert Steady(c, n)[..n - 1] == Steady(c, n - 1);
      SteadyClockNeverStops(c, n - 1);
      if !c.endless {
        SteadyStep(c, Run(c, Steady(c, n - 1)), n - 1);
      }
    }
  }

  lemma {:induction false} SteadyStep(c: Config, s: State, k: nat)
    requires c.Valid() && !Stops(c)
    requires s.outcome == Running && s.phase == (if k > 0 then Measuring else Init(c).phase) && !c.endless
    requires s.numIters == Init(c).numIters && |s.results| == k
    requires s.totalElapsed == k * Tick(c) && s.totalNumIters <= k * s.numIters
    ensures var t := Step(c, s, Input(Tick(c), 0.0));
            && t.outcome == Running && t.phase == Measuring && t.numIters == s.numIters && |t.results| == k + 1
            && t.totalElapsed == (k + 1) * Tick(c) && t.totalNumIters <= (k + 1) * s.numIters
  {
    var r := Record(s, Tick(c));
    assert (k + 1) * Tick(c) == k * Tick(c) + Tick(c);
    assert (k + 1) * s.numIters == k * s.numIters + s.numIters;
    if c.epochIterations == 0 {
      SteadyCount(c, k + 1, r.totalElapsed, r.totalNumIters);
      assert BestFor(c, s, Input(Tick(c), 0.0)) == Iters(c.minEpochIterations);
    }
  }

  lemma {:induction false} SteadyCount(c: Config, n: nat, elapsed: nat, iters: nat)
    requires c.Valid() && n > 0 && elapsed == n * Tick(c) && iters <= n * c.minEpochIterations
    ensures BestNumIters(c, elapsed, iters, 0.0) == Iters(c.minEpochIterations)
  {
    var k, e, x, m := n as real, Tick(c) as real, iters as real, c.minEpochIterations as real;
    assert elapsed as real == k * e;
    assert (n * c.minEpochIterations) as real == k * m;
    NoBetterCount(c.target as real, k, e, x, m);
  }

  lemma {:induction false} NoBetterCount(t: real, k: real, e: real, x: real, m: real)
    requires 0.0 <= t <= e && k > 0.0 && e > 0.0 && 0.0 <= x <= k * m
    ensures t / (k * e) * x <= m
  {
    var q := t / (k * e);
    assert q * (k * e) == t;
    assert q >= 0.0;
    assert (q * k) * e <= 1.0 * e;
    PositiveFactorLe(q * k, 1.0, e);
    assert q * x <= q * (k * m) == (q * k) * m;
    assert (q * k) * m <= m by { assert (1.0 - q * k) * m >= 0.0 by { PositiveOther(k, m, x); } }
  }

  lemma {:induction false} PositiveFactorLe(a: real, b: real, e: real)
    requires e > 0.0 && a * e <= b * e
    ensures a <= b
  {
  }

  lemma {:induction false} PositiveOther(k: real, m: real, x: real)
    requires k > 0.0 && 0.0 <= x <= k * m
    ensures m >= 0.0
  {
  }

  /** Every run stops within some number of rounds, whatever the clock says, exactly under Stops. */
  lemma {:induction false} TerminatesIff(c: Config)
    requires c.Valid()
    ensures Terminates(c) <==> Stops(c)
  {
    if Stops(c) {
      var bound := Fuel(c, Init(c));
      forall inputs | AllAccepted(inputs) && |inputs| > bound
        ensures Run(c, inputs).outcome != Running
      {
        RunBurnsFuel(c, inputs);
      }
      assert StopsWithin(c, bound);
    } else if Terminates(c) {
      var bound: nat :| StopsWithin(c, bound);
      SteadyClockNeverStops(c, bound + 1);
      assert false;
    }
  }

  /** How a run ends, if its arithmetic stays defined: with all epochs recorded, or with none
      because upscaling overflowed. */
  lemma {:induction false} HowRunsEnd(c: Config, inputs: seq<Input>)
    requires c.Valid() && AllAccepted(inputs) && Run(c, inputs).outcome != Running
    ensures var s := Run(c, inputs);
            && (s.outcome.Finished? ==> s.numIters == 0 && |s.results| == c.epochs)
            && (s.outcome.IterationsOverflow? ==> s.numIters == 0 && s.results == [])
  {
    RunKeepsInv(c, inputs);
  }

  /** How often ten times x wraps around. */
  function Wraps(x: nat): nat {
    10 * x / U64
  }

  /** The product wraps, and lands at or above x: the overflow check compares it with x. */
  predicate WrapMissed(x: nat) {
    Wraps(x) >= 1 && 9 * x >= Wraps(x) * U64
  }

  /** The tenfold step goes on with a wrapped count for exactly these counts. */
  lemma {:induction false} WrapMissedIff(c: Config, s: State, elapsed: nat, best: Best)
    requires s.outcome == Running && 0 < s.numIters < U64 && elapsed * 10 < c.target
    ensures var t := Upscale(c, s, elapsed, best);
            t.outcome == Running && t.numIters != 10 * s.numIters <==> WrapMissed(s.numIters)
  {
    var x := s.numIters;
    assert 10 * x == Wraps(x) * U64 + 10 * x % U64;
    assert x * 10 == 10 * x;
  }

  /** They are eight intervals: from k/9 of 2^64 up to (k+1)/10 of it, for k from 1 to 8. */
  lemma {:induction false} WrapMissedIntervals(x: nat)
    requires x < U64
    ensures WrapMissed(x) <==> exists k :: 1 <= k <= 8 && InWrapInterval(x, k)
  {
    var k := Wraps(x);
    assert k * U64 <= 10 * x < k * U64 + U64;
    if WrapMissed(x) {
      assert InWrapInterval(x, k);
    }
    if j :| 1 <= j <= 8 && InWrapInterval(x, j) {
      assert j * U64 <= 10 * x < j * U64 + U64;
      assert j == k;
    }
  }

  predicate InWrapInterval(x: nat, k: nat) {
    k * U64 <= 9 * x && 10 * x < (k + 1) * U64
  }

  /** The wrap check of the tenfold step misses wraps: 2^61 iterations become 2^62. */
  lemma {:induction false} WrapCheckMissesWraps()
    ensures exists c: Config, i: Input :: c.Valid() && Accepts(i) && Step(c, Init(c), i).outcome == Running &&
              Init(c).numIters * 10 >= U64 && Step(c, Init(c), i).numIters < Init(c).numIters * 10
  {
    var c := Config(1, 1, 0x2000_0000_0000_0000, 0, 0, false);
    var i := Input(0, 0.0);
    assert c.Valid() && Accepts(i);
    assert Step(c, Init(c), i).numIters == 0x4000_0000_0000_0000;
  }

  // ----- division by zero -----

  /** Settings under which some clock makes calcBestNumIters divide by zero. */
  predicate ZeroDivisor(c: Config) {
    !c.endless &&
    if c.target == 0 then c.warmup != 0 || c.epochIterations == 0
    else c.warmup != 0 && c.epochIterations == 0 && c.epochs > 0
  }

  ghost predicate NeverZero(c: Config, s: State) {
    && s.outcome != Undefined(DivByZero)
    && (s.outcome == Running && s.phase == Measuring && c.epochIterations == 0 ==> s.totalElapsed > 0)
    && (s.outcome == Running && c.epochs == 0 && c.warmup != 0 && !c.endless ==> s.phase == Warmup)
    && (c.target == 0 && !c.endless ==> s.phase == Measuring)
    && (s.phase == Warmup ==> c.warmup != 0)
    && (s.phase == Endless <==> c.endless)
  }

  lemma {:induction false} StepNeverZero(c: Config, s: State, i: Input)
    requires Accepts(i) && !ZeroDivisor(c) && NeverZero(c, s) && (s.phase != Measuring ==> s.results == [])
    ensures NeverZero(c, Step(c, s, i))
  {
    if s.outcome == Running {
      assert BestFor(c, s, i) == DivByZero ==> AddToPhase(c, s, i.elapsed, DivByZero).outcome != Undefined(DivByZero);
    }
  }

  lemma {:induction false} RunNeverZero(c: Config, inputs: seq<Input>)
    requires c.Valid() && AllAccepted(inputs) && !ZeroDivisor(c)
    ensures NeverZero(c, Run(c, inputs))
  {
    if inputs != [] {
      RunNeverZero(c, inputs[..|inputs| - 1]);
      RunKeepsInv(c, inputs[..|inputs| - 1]);
      StepNeverZero(c, Run(c, inputs[..|inputs| - 1]), inputs[|inputs| - 1]);
    }
  }

  /** A warmup epoch that meets the target, then a measured epoch that takes no time. */
  lemma {:induction false} WarmupThenZero(c: Config) returns (inputs: seq<Input>)
    requires c.Valid() && ZeroDivisor(c) && c.target > 0
    ensures AllAccepted(inputs) && Run(c, inputs).outcome == Undefined(DivByZero)
  {
    inputs := [Input(c.target, 0.0), Input(0, 0.0)];
    var first := inputs[..1];
    assert first == [inputs[0]] && first[..0] == [];
    assert Run(c, first) == Step(c, Init(c), inputs[0]);
    MetTarget(c, c.warmup);
  }

  lemma {:induction false} MetTarget(c: Config, iters: nat)
    requires c.Valid() && c.target > 0 && iters < U64
    ensures BestNumIters(c, c.target, iters, 0.0) ==
            Iters(if iters < c.minEpochIterations then c.minEpochIterations else iters)
  {
    assert (c.target as real) / (c.target as real) == 1.0;
  }

  /** Division by zero is possible under exactly these settings. */
  lemma {:induction false} DividesByZeroIff(c: Config)
    requires c.Valid()
    ensures (exists inputs :: AllAccepted(inputs) && Run(c, inputs).outcome == Undefined(DivByZero)) <==> ZeroDivisor(c)
  {
    if ZeroDivisor(c) {
      if c.target > 0 {
        var inputs := WarmupThenZero(c);
      } else {
        var inputs := [Input(0, 0.0)];
        assert inputs[..0] == [];
        assert Run(c, inputs) == Step(c, Init(c), inputs[0]);
        assert AllAccepted(inputs);
      }
    } else {
      forall inputs | AllAccepted(inputs) ensures Run(c, inputs).outcome != Undefined(DivByZero) {
        RunNeverZero(c, inputs);
      }
    }
  }

  // ----- fixed iteration counts -----

  /** Epoch k of a run has to use epochIterations; `close`: the warmup epoch met the target. */
  predicate IsFixed(c: Config, close: bool, k: nat) {
    c.warmup == 0 || k >= 2 || (k == 1 && close)
  }

  ghost predicate FixedCounts(c: Config, close: bool, s: State) {
    && (forall k :: 0 <= k < |s.results| && IsFixed(c, close, k) ==> s.results[k].iters == c.epochIterations)
    && (s.outcome == Running && s.phase == Measuring && IsFixed(c, close, |s.results|) ==>
          s.numIters == c.epochIterations)
    && (s.outcome == Running && s.phase == Measuring && s.results == [] ==> c.warmup == 0 || close)
    && (s.outcome == Running && s.phase == Upscaling ==> c.warmup != 0 && !close)
    && (s.phase != Measuring ==> s.results == [])
    && (s.phase == Warmup ==> c.warmup != 0)
  }

  lemma {:induction false} StepFixedCounts(c: Config, close: bool, s: State, i: Input)
    requires Accepts(i) && c.epochIterations != 0 && FixedCounts(c, close, s)
    requires s.phase == Warmup ==> close == CloseEnough(c, i.elapsed)
    ensures FixedCounts(c, close, Step(c, s, i))
  {
    if s.outcome == Running {
      var best := BestFor(c, s, i);
      assert Step(c, s, i) == Complete(c, AddToPhase(c, s, i.elapsed, best));
    }
  }

  lemma {:induction false} PastWarmup(c: Config, inputs: seq<Input>)
    requires AllAccepted(inputs)
    ensures inputs != [] && Run(c, inputs).outcome == Running ==> Run(c, inputs).phase != Warmup
  {
    if inputs != [] {
      PastWarmup(c, inputs[..|inputs| - 1]);
    }
  }

  /** With epochIterations set and no warmup every recorded epoch runs exactly that many
      iterations; after a warmup the first recorded epoch need not, nor need the second unless
      the warmup epoch met the target. */
  lemma {:induction false} RunFixedCounts(c: Config, inputs: seq<Input>)
    requires c.Valid() && AllAccepted(inputs) && c.epochIterations != 0
    ensures FixedCounts(c, inputs != [] && CloseEnough(c, inputs[0].elapsed), Run(c, inputs))
  {
    if inputs != [] {
      var front, close := inputs[..|inputs| - 1], CloseEnough(c, inputs[0].elapsed);
      RunFixedCounts(c, front);
      PastWarmup(c, front);
      var s := Run(c, front);
      if s.outcome == Running {
        assert FixedCounts(c, close, s);
        StepFixedCounts(c, close, s, inputs[|inputs| - 1]);
      } else {
        assert FixedCounts(c, close, s);
      }
    }
  }

  const STRAY: Config := Config(100, 11, 1, 100, 1, false)
  const STRAY_UPSCALED: State := State(Upscaling, 10, 0, 0, [], Running)
  const STRAY_MEASURED: State := State(Measuring, 10, 100, 10, [Epoch(100, 10)], Running)

  lemma {:induction false} StrayUpscales()
    ensures Step(STRAY, Init(STRAY), Input(10, 0.0)) == STRAY_UPSCALED
  {
    assert BestReal(STRAY, 10, 1, 0.0) == 10.0;
  }

  lemma {:induction false} StrayRecords(s: State)
    requires s == STRAY_UPSCALED || s == STRAY_MEASURED
    ensures var t := Step(STRAY, s, Input(100, 0.0));
            t.results == s.results + [Epoch(100, 10)] && t.outcome == Running
            && (s == STRAY_UPSCALED ==> t == STRAY_MEASURED)
  {
    assert BestReal(STRAY, 100, 10, 0.0) == 10.0;
  }

  lemma {:induction false} RunsOn(c: Config, inputs: seq<Input>)
    requires AllAccepted(inputs)
    ensures if inputs == [] then Run(c, inputs) == Init(c)
            else Run(c, inputs) == Step(c, Run(c, inputs[..|inputs| - 1]), inputs[|inputs| - 1])
  {
  }

  /** ... and it does happen: 100 iterations asked for, but the second recorded epoch runs 10. */
  lemma {:induction false} SecondEpochNotFixed(c: Config, inputs: seq<Input>)
    requires c == STRAY && inputs == [Input(10, 0.0), Input(100, 0.0), Input(100, 0.0)]
    ensures c.Valid() && AllAccepted(inputs) && c.epochIterations == 100
    ensures var s := Run(c, inputs); s.outcome == Running && |s.results| == 2 && s.results[1].iters == 10
  {
    hide Step;
    hide Run;
    StrayRun();
    StrayRecords(STRAY_MEASURED);
    assert inputs[..2] == [Input(10, 0.0), Input(100, 0.0)];
    RunsOn(c, inputs);
  }

  lemma {:induction false} StrayRun()
    ensures Run(STRAY, [Input(10, 0.0), Input(100, 0.0)]) == STRAY_MEASURED
  {
    hide Step;
    hide Run;
    var one, two := [Input(10, 0.0)], [Input(10, 0.0), Input(100, 0.0)];
    assert one[..0] == [] && two[..1] == one;
    StrayUpscales();
    StrayRecords(STRAY_UPSCALED);
    RunsOn(STRAY, []);
    RunsOn(STRAY, one);
    RunsOn(STRAY, two);
  }

  // ----- when every epoch from the second on is fixed -----

  /** The longest warmup epoch that is not close enough to the target. */
  function LongestNotClose(target: nat): nat
    requires target > 0
  {
    (2 * target - 1) / 3
  }

  /** Some clock reading lets the step after a warmup epoch that missed the target go on: the tenfold
      product passes the overflow check, or the count computed for the longest such epoch fits. */
  predicate UpscalesOn(c: Config)
    requires c.target > 0
  {
    c.warmup * 10 % U64 >= c.warmup
    || (c.target >= 2 && BestNumIters(c, LongestNotClose(c.target), c.warmup, 0.0).Iters?)
  }

  /** Settings under which the second recorded epoch may have another count than epochIterations.
      If the minimum and the fixed count both are 2^64 - 1, nothing else is left to compute. */
  predicate SecondMayDiffer(c: Config) {
    && c.warmup != 0 && c.epochs >= 2 && c.target > 0 && UpscalesOn(c)
    && !(c.minEpochIterations == U64_MAX && c.epochIterations == U64_MAX)
  }

  ghost predicate FixedFromSecond(c: Config, s: State) {
    forall k :: 1 <= k < |s.results| ==> s.results[k].iters == c.epochIterations
  }

  /** From an upscaling state, an epoch that is close enough can be followed by any other count. */
  lemma {:induction false} OtherBest(c: Config, x: nat) returns (i: Input)
    requires c.Valid() && c.target > 0 && 3 <= x < U64
    requires !(c.minEpochIterations == U64_MAX && c.epochIterations == U64_MAX)
    ensures Accepts(i) && CloseEnough(c, i.elapsed)
    ensures var b := BestNumIters(c, i.elapsed, x, i.noise); b.Iters? && b.n != c.epochIterations
  {
    var m := c.minEpochIterations;
    if m != c.epochIterations {
      i := Input(c.target * U64, 0.0);
      SlowEpoch(c, x, 0.0);
    } else if m >= 3 {
      i := Input(c.target * U64, 2.5 / m as real);
      SlowEpoch(c, x, i.noise);
      assert (m as real) * (0.2 * i.noise) == 0.5;
    } else {
      i := Input(c.target, 0.0);
      MetTarget(c, x);
    }
  }

  lemma {:induction false} SlowQuotient(t: real, k: real, x: real, d: real)
    requires 0.0 < t && k > 0.0 && 0.0 <= x <= k && d == k * t
    ensures t / d * x <= 1.0
  {
    NoBetterCount(t, k, t, x, 1.0);
  }

  /** After an epoch that is far too long only the minimum count is left, and its noise. */
  lemma {:induction false} SlowEpoch(c: Config, x: nat, noise: real)
    requires c.Valid() && c.target > 0 && x < U64 && 0.0 <= noise
    ensures CloseEnough(c, c.target * U64) && c.target * U64 > 0
    ensures BestReal(c, c.target * U64, x, noise) ==
            (c.minEpochIterations as real) + (c.minEpochIterations as real) * (0.2 * noise)
  {
    var e := c.target * U64;
    assert e as real == (U64 as real) * (c.target as real);
    SlowQuotient(c.target as real, U64 as real, x as real, e as real);
    var q := (c.target as real) / (e as real) * (x as real);
    assert q <= 1.0;
    var m := c.minEpochIterations as real;
    assert m * (1.0 + 0.2 * noise) == m + m * (0.2 * noise);
  }

  // a run that differs

  lemma {:induction false} NotCloseGrows(c: Config)
    requires c.target >= 2
    ensures var e := LongestNotClose(c.target); e > 0 && !CloseEnough(c, e) && e * 10 >= c.target
  {
  }

  /** The first round of such a run: a warmup epoch that misses the target. */
  lemma {:induction false} FirstUpscale(c: Config) returns (i: Input, x: nat)
    requires c.Valid() && !c.endless && c.warmup != 0 && c.target > 0 && UpscalesOn(c) && c.epochs > 0
    ensures Accepts(i) && 3 <= x < U64 && Step(c, Init(c), i) == State(Upscaling, x, 0, 0, [], Running)
  {
    hide Step;
    hide BestNumIters;
    if c.warmup * 10 % U64 >= c.warmup {
      i, x := Input(0, 0.0), c.warmup * 10 % U64;
      FirstTenfold(c);
    } else {
      i, x := Input(LongestNotClose(c.target), 0.0), BestNumIters(c, LongestNotClose(c.target), c.warmup, 0.0).n;
      FirstComputed(c);
    }
  }

  lemma {:induction false} FirstTenfold(c: Config)
    requires c.Valid() && !c.endless && c.warmup != 0 && c.target > 0 && c.epochs > 0
    requires c.warmup * 10 % U64 >= c.warmup
    ensures 3 <= c.warmup * 10 % U64 < U64
    ensures Step(c, Init(c), Input(0, 0.0)) == State(Upscaling, c.warmup * 10 % U64, 0, 0, [], Running)
  {
    assert c.warmup * 10 < U64 ==> c.warmup * 10 % U64 == c.warmup * 10;
    hide BestNumIters;
  }

  lemma {:induction false} FirstComputed(c: Config)
    requires c.Valid() && !c.endless && c.target >= 2 && c.epochs > 0 && c.warmup * 10 >= U64
    requires BestNumIters(c, LongestNotClose(c.target), c.warmup, 0.0).Iters?
    ensures var x := BestNumIters(c, LongestNotClose(c.target), c.warmup, 0.0).n;
            && 3 <= x < U64
            && Step(c, Init(c), Input(LongestNotClose(c.target), 0.0)) == State(Upscaling, x, 0, 0, [], Running)
  {
    NotCloseGrows(c);
    UpscaleGrows(c, Init(c).(phase := Upscaling), Input(LongestNotClose(c.target), 0.0));
    hide BestNumIters;
  }

  lemma {:induction false} SecondRound(c: Config, x: nat, i: Input)
    requires c.Valid() && c.epochs >= 2 && 3 <= x < U64 && Accepts(i) && CloseEnough(c, i.elapsed)
    requires BestNumIters(c, i.elapsed, x, i.noise).Iters?
    ensures Step(c, State(Upscaling, x, 0, 0, [], Running), i) ==
            State(Measuring, BestNumIters(c, i.elapsed, x, i.noise).n, i.elapsed, x, [Epoch(i.elapsed, x)], Running)
  {
    var s := State(Upscaling, x, 0, 0, [], Running);
    assert Record(s, i.elapsed) == s.(totalElapsed := i.elapsed, totalNumIters := x, results := [Epoch(i.elapsed, x)]);
    assert BestFor(c, s, i) == BestNumIters(c, i.elapsed, x, i.noise);
  }

  lemma {:induction false} ThirdRound(c: Config, s: State, i: Input)
    requires Accepts(i) && s.phase == Measuring && s.outcome == Running && |s.results| == 1 && c.epochIterations != 0
    ensures Step(c, s, i).results == s.results + [Epoch(i.elapsed, s.numIters)]
  {
  }

  lemma {:induction false} DifferingRun(c: Config) returns (inputs: seq<Input>)
    requires c.Valid() && !c.endless && c.epochIterations != 0 && SecondMayDiffer(c)
    ensures AllAccepted(inputs) && |Run(c, inputs).results| == 2
    ensures Run(c, inputs).results[1].iters != c.epochIterations
  {
    var i0, x := FirstUpscale(c);
    var i1 := OtherBest(c, x);
    SecondRound(c, x, i1);
    var i2 := Input(0, 0.0);
    inputs := [i0, i1, i2];
    ThirdRound(c, Step(c, Step(c, Init(c), i0), i1), i2);
    assert inputs[..2][..1] == inputs[..1] && inputs[..1][..0] == [];
    RunsOn(c, []);
    RunsOn(c, inputs[..1]);
    RunsOn(c, inputs[..2]);
    RunsOn(c, inputs);
    hide Run;
    hide Step;
    hide BestNumIters;
  }

  // no run differs

  lemma {:induction false} LongerIsLess(t: real, e: real, f: real, x: real)
    requires t >= 0.0 && 0.0 < e <= f && x >= 0.0
    ensures t / e * x >= t / f * x
  {
    var p, q := t / e, t / f;
    QuotientFalls(t, e, f);
    assert (p - q) * x >= 0.0;
  }

  lemma {:induction false} QuotientFalls(t: real, e: real, f: real)
    requires t >= 0.0 && 0.0 < e <= f
    ensures t / e >= t / f
  {
    var p, q := t / e, t / f;
    assert p * e == t && q * f == t;
    assert q >= 0.0;
    assert q * e <= q * f;
    PositiveFactorLe(q, p, e);
  }

  lemma {:induction false} LongerIsBetter(c: Config, e: nat, f: nat, iters: nat, noise: real)
    requires 0 < e <= f && 0.0 <= noise
    ensures BestReal(c, e, iters, noise) >= BestReal(c, f, iters, 0.0)
    ensures BestNumIters(c, e, iters, noise).Iters? ==> BestNumIters(c, f, iters, 0.0).Iters?
  {
    LongerIsLess(c.target as real, e as real, f as real, iters as real);
    BestRealAtLeast(c, e, iters, noise);
  }

  /** Where upscaling cannot go on, a warmup epoch that misses the target ends the run. */
  lemma {:induction false} UpscaleStops(c: Config, i: Input)
    requires c.Valid() && !c.endless && c.warmup != 0 && c.target > 0 && !UpscalesOn(c)
    requires Accepts(i) && !CloseEnough(c, i.elapsed)
    ensures Step(c, Init(c), i).outcome != Running && Step(c, Init(c), i).results == []
  {
    if i.elapsed * 10 >= c.target {
      LongerIsBetter(c, i.elapsed, LongestNotClose(c.target), c.warmup, i.noise);
    }
  }

  lemma {:induction false} StoppedStays(c: Config, inputs: seq<Input>, k: nat)
    requires AllAccepted(inputs) && k <= |inputs| && Run(c, inputs[..k]).outcome != Running
    ensures Run(c, inputs) == Run(c, inputs[..k])
    decreases |inputs|
  {
    if k < |inputs| {
      assert inputs[..|inputs| - 1][..k] == inputs[..k];
      StoppedStays(c, inputs[..|inputs| - 1], k);
    } else {
      assert inputs[..k] == inputs;
    }
  }

  /** With no epochs asked for a warmup is all there is. */
  lemma {:induction false} OnlyWarmup(c: Config, inputs: seq<Input>)
    requires c.Valid() && AllAccepted(inputs) && !c.endless && c.warmup != 0 && c.epochs == 0
    ensures Run(c, inputs).results == [] && (Run(c, inputs).outcome == Running ==> Run(c, inputs).phase == Warmup)
  {
    if inputs != [] {
      OnlyWarmup(c, inputs[..|inputs| - 1]);
      var s, i := Run(c, inputs[..|inputs| - 1]), inputs[|inputs| - 1];
      if s.outcome == Running { assert AddToPhase(c, s, i.elapsed, BestFor(c, s, i)).results == []; }
    }
  }

  /** Only one count is left to compute. */
  lemma {:induction false} OnlyMaximum(c: Config, elapsed: nat, iters: nat, noise: real)
    requires c.Valid() && c.minEpochIterations == U64_MAX && 0.0 <= noise
    ensures BestNumIters(c, elapsed, iters, noise).Iters? ==> BestNumIters(c, elapsed, iters, noise).n == U64_MAX
  {
    if elapsed > 0 { BestRealAtLeast(c, elapsed, iters, noise); }
  }

  lemma {:induction false} MaximumStep(c: Config, s: State, i: Input)
    requires c.Valid() && Accepts(i) && c.minEpochIterations == U64_MAX && c.epochIterations == U64_MAX
    requires FixedFromSecond(c, s) && (s.outcome == Running && s.results != [] ==> s.numIters == U64_MAX)
    ensures var t := Step(c, s, i);
            FixedFromSecond(c, t) && (t.outcome == Running && t.results != [] ==> t.numIters == U64_MAX)
  {
    if s.outcome == Running {
      var r := Record(s, i.elapsed);
      OnlyMaximum(c, i.elapsed, s.numIters, i.noise);
      OnlyMaximum(c, r.totalElapsed, r.totalNumIters, i.noise);
      var b := BestFor(c, s, i);
      assert b.Iters? ==> b.n == U64_MAX;
      hide BestNumIters;
    }
  }

  lemma {:induction false} MaximumRun(c: Config, inputs: seq<Input>)
    requires c.Valid() && AllAccepted(inputs) && c.minEpochIterations == U64_MAX && c.epochIterations == U64_MAX
    ensures var t := Run(c, inputs);
            FixedFromSecond(c, t) && (t.outcome == Running && t.results != [] ==> t.numIters == U64_MAX)
  {
    if inputs != [] {
      MaximumRun(c, inputs[..|inputs| - 1]);
      MaximumStep(c, Run(c, inputs[..|inputs| - 1]), inputs[|inputs| - 1]);
    }
  }

  lemma {:induction false} NoRunDiffers(c: Config, inputs: seq<Input>)
    requires c.Valid() && !c.endless && c.epochIterations != 0 && !SecondMayDiffer(c) && AllAccepted(inputs)
    ensures FixedFromSecond(c, Run(c, inputs))
  {
    var close := inputs != [] && CloseEnough(c, inputs[0].elapsed);
    RunFixedCounts(c, inputs);
    RunKeepsInv(c, inputs);
    if c.warmup != 0 && !close && inputs != [] && c.epochs != 1 {
      if c.epochs == 0 {
        OnlyWarmup(c, inputs);
      } else if c.target > 0 && !UpscalesOn(c) {
        assert inputs[..1][..0] == [];
        RunsOn(c, []);
        RunsOn(c, inputs[..1]);
        UpscaleStops(c, inputs[0]);
        StoppedStays(c, inputs, 1);
      } else {
        MaximumRun(c, inputs);
      }
    }
  }

  /** With epochIterations set, every recorded epoch from the second on uses it, under every clock,
      exactly if the settings are not such that the second may differ. */
  lemma {:induction false} FixedFromSecondIff(c: Config)
    requires c.Valid() && !c.endless && c.epochIterations != 0
    ensures (forall inputs :: AllAccepted(inputs) ==> FixedFromSecond(c, Run(c, inputs))) <==> !SecondMayDiffer(c)
  {
    if SecondMayDiffer(c) {
      var inputs := DifferingRun(c);
      assert !FixedFromSecond(c, Run(c, inputs));
    } else {
      forall inputs | AllAccepted(inputs) ensures FixedFromSecond(c, Run(c, inputs)) {
        NoRunDiffers(c, inputs);
      }
    }
  }

  /** Below a tenth of 2^64 warmup iterations, upscaling always can go on. */
  lemma {:induction false} SmallWarmupUpscales(c: Config)
    requires c.target > 0 && c.warmup * 10 < U64
    ensures UpscalesOn(c)
  {
  }

  // ----- runs that stay defined -----

  /** No epoch is faster than `rate` iterations in a nanosecond, and none takes no time. */
  ghost predicate RateBelow(c: Config, rate: nat, inputs: seq<Input>)
    requires AllAccepted(inputs)
  {
    forall i {:trigger inputs[i]} :: 0 <= i < |inputs| ==>
      0 < inputs[i].elapsed && Run(c, inputs[..i]).numIters <= rate * inputs[i].elapsed
  }

  /** Settings under which no count computed at that rate leaves uint64_t, 20% noise included. */
  predicate RateFits(c: Config, rate: nat) {
    6 * LargestBase(c, rate) + 5 < 5 * U64
  }

  lemma {:induction false} QuotientAtRate(t: real, e: real, x: real, k: real)
    requires t >= 0.0 && e > 0.0 && 0.0 <= x <= k * e
    ensures t / e * x <= k * t
  {
    var q := t / e;
    assert q * e == t;
    assert q >= 0.0;
    assert q * x <= q * (k * e);
    assert q * (k * e) == k * (q * e);
  }

  lemma {:induction false} NoiseAtMost(a: real, b: real, noise: real)
    requires 0.0 <= a <= b && 0.0 <= noise < 1.0
    ensures a * (1.0 + 0.2 * noise) <= 1.2 * b
  {
    var n := 1.0 + 0.2 * noise;
    assert a * n <= a * 1.2;
  }

  function LargestBase(c: Config, rate: nat): nat {
    if rate * c.target < c.minEpochIterations then c.minEpochIterations else rate * c.target
  }

  lemma {:induction false} BaseAtRate(c: Config, rate: nat, elapsed: nat, iters: nat)
    requires elapsed > 0 && iters <= rate * elapsed
    ensures var newIters := (c.target as real) / (elapsed as real) * (iters as real);
            0.0 <= newIters <= (rate * c.target) as real
  {
    var t, e, x, k := c.target as real, elapsed as real, iters as real, rate as real;
    assert (rate * elapsed) as real == k * e;
    assert (rate * c.target) as real == k * t;
    QuotientAtRate(t, e, x, k);
    QuotientNotNegative(t, e, x);
  }

  lemma {:induction false} QuotientNotNegative(t: real, e: real, x: real)
    requires t >= 0.0 && e > 0.0 && x >= 0.0
    ensures t / e * x >= 0.0
  {
    assert t / e >= 0.0;
  }

  lemma {:induction false} BestRealAtMost(c: Config, rate: nat, elapsed: nat, iters: nat, noise: real)
    requires elapsed > 0 && iters <= rate * elapsed && 0.0 <= noise < 1.0
    ensures BestReal(c, elapsed, iters, noise) <= 1.2 * (LargestBase(c, rate) as real)
  {
    BaseAtRate(c, rate, elapsed, iters);
    var newIters := (c.target as real) / (elapsed as real) * (iters as real);
    var atLeast := if newIters < c.minEpochIterations as real then c.minEpochIterations as real else newIters;
    assert 0.0 <= atLeast <= LargestBase(c, rate) as real;
    NoiseAtMost(atLeast, LargestBase(c, rate) as real, noise);
  }

  lemma {:induction false} FloorFits(x: real, base: nat)
    requires x <= 1.2 * (base as real) && 6 * base + 5 < 5 * U64
    ensures (x + 0.5).Floor < U64
  {
    assert 6.0 * (base as real) + 5.0 < 5.0 * (U64 as real);
    assert x + 0.5 < U64 as real;
  }

  lemma {:induction false} BestDefined(c: Config, rate: nat, elapsed: nat, iters: nat, noise: real)
    requires RateFits(c, rate) && elapsed > 0 && iters <= rate * elapsed && 0.0 <= noise < 1.0
    ensures BestNumIters(c, elapsed, iters, noise).Iters?
  {
    BestRealAtMost(c, rate, elapsed, iters, noise);
    hide BestReal;
    FloorFits(BestReal(c, elapsed, iters, noise), LargestBase(c, rate));
  }

  /** Neither undefined nor overflowing, and the totals no faster than the rate. */
  ghost predicate AtRate(rate: nat, s: State) {
    && (s.outcome == Running || s.outcome == Finished)
    && s.totalNumIters <= rate * s.totalElapsed && (s.results != [] ==> s.totalElapsed > 0)
  }

  lemma {:induction false} RateAdds(rate: nat, a: nat, b: nat, x: nat, y: nat)
    requires x <= rate * a && y <= rate * b
    ensures (x + y) % U64 <= rate * (a + b)
  {
    assert rate * (a + b) == rate * a + rate * b;
  }

  lemma {:induction false} BestForAtRate(c: Config, rate: nat, s: State, i: Input)
    requires RateFits(c, rate) && Accepts(i) && AtRate(rate, s) && 0 < i.elapsed && s.numIters <= rate * i.elapsed
    ensures BestFor(c, s, i).Iters?
    ensures var r := Record(s, i.elapsed); r.totalNumIters <= rate * r.totalElapsed && r.totalElapsed > 0
  {
    var r := Record(s, i.elapsed);
    RateAdds(rate, s.totalElapsed, i.elapsed, s.totalNumIters, s.numIters);
    BestDefined(c, rate, i.elapsed, s.numIters, i.noise);
    BestDefined(c, rate, r.totalElapsed, r.totalNumIters, i.noise);
    hide BestNumIters;
  }

  lemma {:induction false} AtRateStep(c: Config, rate: nat, s: State, i: Input)
    requires c.Valid() && RateFits(c, rate) && Accepts(i) && Inv(c, s) && s.outcome == Running && !c.endless
    requires AtRate(rate, s) && 0 < i.elapsed && s.numIters <= rate * i.elapsed
    ensures AtRate(rate, Step(c, s, i))
  {
    BestForAtRate(c, rate, s, i);
    TenfoldAtRate(c, rate, s.numIters, i.elapsed);
    AddAtRate(c, rate, s, i.elapsed, BestFor(c, s, i));
    hide BestFor;
    hide AddToPhase;
    hide Inv;
  }

  lemma {:induction false} AddAtRate(c: Config, rate: nat, s: State, elapsed: nat, b: Best)
    requires s.outcome == Running && AtRate(rate, s) && b.Iters? && s.numIters < U64
    requires elapsed * 10 < c.target ==> s.numIters * 10 % U64 == s.numIters * 10
    requires var r := Record(s, elapsed); r.totalNumIters <= rate * r.totalElapsed && r.totalElapsed > 0
    ensures AtRate(rate, Complete(c, AddToPhase(c, s, elapsed, b)))
  {
  }

  /** At the rate, ten times the iterations of a far too short epoch is below 2^64. */
  lemma {:induction false} TenfoldAtRate(c: Config, rate: nat, iters: nat, elapsed: nat)
    requires RateFits(c, rate) && iters <= rate * elapsed
    ensures elapsed * 10 < c.target ==> iters * 10 % U64 == iters * 10
  {
    if elapsed * 10 < c.target {
      assert rate * (elapsed * 10) <= rate * c.target;
      assert rate * (elapsed * 10) == rate * elapsed * 10;
    }
  }

  lemma {:induction false} AtRateRun(c: Config, rate: nat, inputs: seq<Input>)
    requires c.Valid() && RateFits(c, rate) && !c.endless && AllAccepted(inputs) && RateBelow(c, rate, inputs)
    ensures AtRate(rate, Run(c, inputs))
  {
    if inputs != [] {
      var front, last := inputs[..|inputs| - 1], inputs[|inputs| - 1];
      forall i | 0 <= i < |front|
        ensures 0 < front[i].elapsed && Run(c, front[..i]).numIters <= rate * front[i].elapsed
      {
        assert front[..i] == inputs[..i] && front[i] == inputs[i];
      }
      AtRateRun(c, rate, front);
      RunKeepsInv(c, front);
      RunsOn(c, inputs);
      if Run(c, front).outcome == Running { AtRateStep(c, rate, Run(c, front), last); }
    }
  }

  /** Still going, or finished with all the epochs asked for. */
  ghost predicate GoingOrComplete(c: Config, s: State) {
    s.outcome == Running || (s.outcome == Finished && |s.results| == c.epochs)
  }

  lemma {:induction false} CompleteAtRate(c: Config, rate: nat, rounds: nat, inputs: seq<Input>)
    requires c.Valid() && RateFits(c, rate) && !c.endless && StopsWithin(c, rounds)
    requires AllAccepted(inputs) && RateBelow(c, rate, inputs)
    ensures GoingOrComplete(c, Run(c, inputs)) && (|inputs| > rounds ==> Run(c, inputs).outcome == Finished)
  {
    AtRateRun(c, rate, inputs);
    RunKeepsInv(c, inputs);
    hide Run;
  }

  /** At a bounded rate, with settings that fit it, every run is still going or has finished with all
      the epochs asked for; and finish it does, whatever the readings are. */
  lemma {:induction false} FinishesAtRate(c: Config, rate: nat) returns (rounds: nat)
    requires c.Valid() && RateFits(c, rate) && !c.endless && c.epochs > 0
    ensures forall inputs :: AllAccepted(inputs) && RateBelow(c, rate, inputs) ==>
              GoingOrComplete(c, Run(c, inputs)) && (|inputs| > rounds ==> Run(c, inputs).outcome == Finished)
  {
    TerminatesIff(c);
    rounds :| StopsWithin(c, rounds);
    hide *;
    forall inputs | AllAccepted(inputs) && RateBelow(c, rate, inputs)
      ensures GoingOrComplete(c, Run(c, inputs)) && (|inputs| > rounds ==> Run(c, inputs).outcome == Finished)
    {
      CompleteAtRate(c, rate, rounds, inputs);
    }
  }

  // ----- the object and the loop of Bench::run -----

  class Impl {
    const config: Config
    var mNumIters: nat
    var mResult: seq<Epoch>
    var mTotalElapsed: nat
    var mTotalNumIters: nat
    var mState: Phase
    var outcome: Outcome      // Undefined: the source's behaviour is undefined from here on

    ghost function Abs(): State
      reads this
    {
      State(mState, mNumIters, mTotalElapsed, mTotalNumIters, mResult, outcome)
    }

    constructor (c: Config)
      ensures config == c && Abs() == Init(c)
    {
      config := c;
      mResult, mTotalElapsed, mTotalNumIters, outcome := [], 0, 0, Running;
      if c.endless {
        mNumIters, mState := U64_MAX, Endless;
      } else if c.warmup != 0 {
        mNumIters, mState := c.warmup, Warmup;
      } else if c.epochIterations != 0 {
        mNumIters, mState := c.epochIterations, Measuring;
      } else {
        mNumIters, mState := c.minEpochIterations, Upscaling;
      }
    }

    method AssignBest(elapsed: nat, iters: nat, noise: real)
      requires 0.0 <= noise && outcome == Running
      modifies this`mNumIters, this`outcome
      ensures Abs() == SetIters(old(Abs()), BestNumIters(config, elapsed, iters, noise))
    {
      var best := BestNumIters(config, elapsed, iters, noise);
      if best.Iters? {
        mNumIters := best.n;
      } else {
        outcome := Undefined(best);
      }
    }

    method DoUpscale(i: Input)
      requires Accepts(i) && outcome == Running && mNumIters < U64
      modifies this`mNumIters, this`outcome
      ensures Abs() == Upscale(config, old(Abs()), i.elapsed, BestNumIters(config, i.elapsed, old(mNumIters), i.noise))
    {
      if i.elapsed * 10 < config.target {
        if mNumIters * 10 % U64 < mNumIters {
          mNumIters, outcome := 0, IterationsOverflow;
          return;
        }
        mNumIters := mNumIters * 10 % U64;
      } else {
        AssignBest(i.elapsed, mNumIters, i.noise);
      }
    }

    method RecordEpoch(elapsed: nat)
      modifies this`mTotalElapsed, this`mTotalNumIters, this`mResult
      ensures Abs() == Record(old(Abs()), elapsed)
    {
      mTotalElapsed := mTotalElapsed + elapsed;
      mTotalNumIters := (mTotalNumIters + mNumIters) % U64;
      mResult := mResult + [Epoch(elapsed, mNumIters)];
    }

    method Add(i: Input)
      requires Accepts(i) && outcome == Running && mNumIters < U64
      modifies this
      ensures Abs() == Step(config, old(Abs()), i)
    {
      match mState {
        case Warmup =>
          if CloseEnough(config, i.elapsed) {
            mState := Measuring;
            AssignBest(i.elapsed, mNumIters, i.noise);
          } else {
            mState := Upscaling;
            DoUpscale(i);
          }
        case Upscaling =>
          if CloseEnough(config, i.elapsed) {
            mState := Measuring;
            RecordEpoch(i.elapsed);
            AssignBest(mTotalElapsed, mTotalNumIters, i.noise);
          } else {
            DoUpscale(i);
          }
        case Measuring =>
          RecordEpoch(i.elapsed);
          if config.epochIterations != 0 {
            mNumIters := config.epochIterations;
          } else {
            AssignBest(mTotalElapsed, mTotalNumIters, i.noise);
          }
        case Endless =>
          mNumIters := U64_MAX;
      }
      if !outcome.Undefined? && |mResult| == config.epochs {
        mNumIters, outcome := 0, Finished;
      }
    }
  }

  /** Bench::run: any clock, any noise.  Dafny accepts the loop because it ends. */
  method BenchRun(c: Config) returns (results: seq<Epoch>, outcome: Outcome, ghost inputs: seq<Input>)
    requires c.Valid() && Stops(c)
    ensures AllAccepted(inputs) && outcome == Run(c, inputs).outcome != Running
    ensures results == Run(c, inputs).results
    ensures outcome.Finished? ==> |results| == c.epochs
    ensures outcome.IterationsOverflow? ==> results == []
    ensures forall k :: 0 <= k < |results| ==> results[k].iters > 0
    ensures c.epochIterations != 0 && c.warmup == 0 ==>
              forall k :: 0 <= k < |results| ==> results[k].iters == c.epochIterations
  {
    var logic := new Impl(c);
    inputs := [];
    while logic.mNumIters != 0 && !logic.outcome.Undefined?
      invariant logic.config == c && AllAccepted(inputs)
      invariant logic.Abs() == Run(c, inputs) && Inv(c, logic.Abs()) && StopsFrom(c, logic.Abs())
      invariant logic.outcome == Running ==> logic.mNumIters < U64
      decreases if logic.outcome == Running then 1 + Fuel(c, logic.Abs()) else 0
    {
      var elapsed: nat := *;
      var noise: real := *;
      if noise < 0.0 || noise >= 1.0 {
        noise := 0.0;
      }
      var i := Input(elapsed, noise);
      StepKeepsInv(c, logic.Abs(), i);
      StepBurnsFuel(c, logic.Abs(), i);
      assert (inputs + [i])[..|inputs|] == inputs;
      logic.Add(i);
      inputs := inputs + [i];
    }
    results, outcome := logic.mResult, logic.outcome;
    if c.epochIterations != 0 && c.warmup == 0 {
      RunFixedCounts(c, inputs);
    }
  }
}
