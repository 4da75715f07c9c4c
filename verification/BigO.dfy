/** nanobench's least-squares fit of a complexity class, over the reals. */
module BigO {

  /** complexity(N) and the median time, for one benchmark. */
  datatype Measure = Measure(x: real, y: real)

  function Product(a: real, b: real): real {
    a * b
  }

  function Square(d: real): real {
    Product(d, d)
  }

  function SumXY(rm: seq<Measure>): real {
    if rm == [] then 0.0 else SumXY(rm[..|rm| - 1]) + rm[|rm| - 1].x * rm[|rm| - 1].y
  }

  function SumXX(rm: seq<Measure>): real {
    if rm == [] then 0.0 else SumXX(rm[..|rm| - 1]) + Square(rm[|rm| - 1].x)
  }

  function SumYY(rm: seq<Measure>): real {
    if rm == [] then 0.0 else SumYY(rm[..|rm| - 1]) + Square(rm[|rm| - 1].y)
  }

  function SumY(rm: seq<Measure>): real {
    if rm == [] then 0.0 else SumY(rm[..|rm| - 1]) + rm[|rm| - 1].y
  }

  function Residual(c: real, m: Measure): real {
    c * m.x - m.y
  }

  /** The sum of squared residuals of the candidate constant c. */
  function SquaredError(c: real, rm: seq<Measure>): real {
    if rm == [] then 0.0
    else
      SquaredError(c, rm[..|rm| - 1]) + Square(Residual(c, rm[|rm| - 1]))
  }

  // ----- the constructor -----

  /** A fit, before the square root; None where the source divides by zero. */
  datatype Fit = NotANumber | Fit(constant: real, meanSquare: real, mean: real)

  method FitConstant(rm: seq<Measure>) returns (fit: Fit)
    ensures fit.NotANumber? <==> forall m :: m in rm ==> m.x == 0.0
    ensures fit.Fit? ==> rm != [] && fit.meanSquare == SquaredError(fit.constant, rm) / |rm| as real
    ensures fit.Fit? ==> rm != [] && fit.mean == SumY(rm) / |rm| as real
    ensures fit.Fit? ==> forall c :: SquaredError(fit.constant, rm) <= SquaredError(c, rm)
    ensures fit.Fit? ==> forall c :: SquaredError(c, rm) == SquaredError(fit.constant, rm) ==> c == fit.constant
  {
    hide Square;
    var sumRangeMeasure, sumRangeRange := 0.0, 0.0;
    for i := 0 to |rm|
      invariant sumRangeMeasure == SumXY(rm[..i])
      invariant sumRangeRange == SumXX(rm[..i])
    {
      assert rm[..i + 1][..i] == rm[..i];
      sumRangeMeasure := sumRangeMeasure + rm[i].x * rm[i].y;
      sumRangeRange := sumRangeRange + Square(rm[i].x);
    }
    assert rm[..|rm|] == rm;
    SumXXZeroIff(rm);
    if sumRangeRange == 0.0 { return NotANumber; }
    var constant := sumRangeMeasure / sumRangeRange;
    var err, sumMeasure := 0.0, 0.0;
    for i := 0 to |rm|
      invariant err == SquaredError(constant, rm[..i])
      invariant sumMeasure == SumY(rm[..i])
    {
      assert rm[..i + 1][..i] == rm[..i];
      var diff := Residual(constant, rm[i]);
      err := err + Square(diff);
      sumMeasure := sumMeasure + rm[i].y;
    }
    var n := |rm| as real;
    fit := Fit(constant, err / n, sumMeasure / n);
    OnlyMinimum(constant, rm);
  }

  lemma {:induction false} OnlyMinimum(k: real, rm: seq<Measure>)
    requires SumXX(rm) > 0.0 && k == SumXY(rm) / SumXX(rm)
    ensures forall c :: SquaredError(k, rm) <= SquaredError(c, rm)
    ensures forall c :: SquaredError(c, rm) == SquaredError(k, rm) ==> c == k
  {
    forall c ensures SquaredError(k, rm) <= SquaredError(c, rm)
             ensures SquaredError(c, rm) == SquaredError(k, rm) ==> c == k
    {
      ErrorAboveMinimum(k, c, rm);
    }
  }

  lemma {:induction false} SumXXZeroIff(rm: seq<Measure>)
    ensures SumXX(rm) >= 0.0
    ensures SumXX(rm) == 0.0 <==> forall m :: m in rm ==> m.x == 0.0
  {
    if rm != [] {
      var front, last := rm[..|rm| - 1], rm[|rm| - 1];
      SumXXZeroIff(front);
      assert rm == front + [last];
      SquarePositive(last.x);
    }
  }

  lemma {:induction false} SquarePositive(d: real)
    ensures Square(d) >= 0.0
    ensures Square(d) == 0.0 <==> d == 0.0
  {
    hide Product;
    if d == 0.0 { NoSign(d, d); } else { SameSign(d, d); }
  }

  lemma {:induction false} SameSign(a: real, b: real)
    requires (a < 0.0 && b < 0.0) || (a > 0.0 && b > 0.0)
    ensures Product(a, b) > 0.0
  {
  }

  lemma {:induction false} NoSign(a: real, b: real)
    requires a == 0.0
    ensures Product(a, b) == 0.0
  {
  }

  lemma {:induction false} Scaled(a: real, b: real)
    requires a > 0.0 && b >= 0.0
    ensures a * b >= 0.0 && (a * b == 0.0 <==> b == 0.0)
  {
  }

  /** The squared error as a polynomial in the constant. */
  lemma {:induction false} ErrorExpands(c: real, rm: seq<Measure>)
    ensures SquaredError(c, rm) == SumYY(rm) - 2.0 * c * SumXY(rm) + c * c * SumXX(rm)
  {
    if rm != [] {
      var front, m := rm[..|rm| - 1], rm[|rm| - 1];
      ErrorExpands(c, front);
      ResidualExpands(c, m);
      Distributes(2.0 * c, SumXY(front), m.x * m.y);
      Distributes(c * c, SumXX(front), Square(m.x));
      hide Square;
    }
  }

  lemma {:induction false} ResidualExpands(c: real, m: Measure)
    ensures Square(Residual(c, m)) == Square(m.y) - 2.0 * c * (m.x * m.y) + c * c * Square(m.x)
  {
  }

  lemma {:induction false} Distributes(k: real, a: real, b: real)
    ensures k * (a + b) == k * a + k * b
  {
  }

  /** Any constant's error exceeds that of the fitted one by the sum of squares times their squared
      distance: the fit is the minimum, and the only one. */
  lemma {:induction false} ErrorAboveMinimum(k: real, c: real, rm: seq<Measure>)
    requires SumXX(rm) > 0.0 && k == SumXY(rm) / SumXX(rm)
    ensures SquaredError(c, rm) == SquaredError(k, rm) + SumXX(rm) * Square(c - k)
    ensures SquaredError(k, rm) <= SquaredError(c, rm)
    ensures SquaredError(c, rm) == SquaredError(k, rm) ==> c == k
  {
    ErrorExpands(c, rm);
    ErrorExpands(k, rm);
    var sxx, sxy := SumXX(rm), SumXY(rm);
    assert sxy == k * sxx;
    assert c * sxy == c * k * sxx && k * sxy == k * k * sxx;
    SquarePositive(c - k);
    Scaled(sxx, Square(c - k));
  }

  /** The fit is exact precisely when the times are proportional to the complexity. */
  lemma {:induction false} ExactIff(c: real, rm: seq<Measure>)
    ensures SquaredError(c, rm) >= 0.0
    ensures SquaredError(c, rm) == 0.0 <==> forall m :: m in rm ==> m.y == c * m.x
  {
    if rm != [] {
      var front, m := rm[..|rm| - 1], rm[|rm| - 1];
      ExactIff(c, front);
      assert rm == front + [m];
      SquarePositive(Residual(c, m));
    }
  }

  // ----- collectRangeMeasure -----

  /** One benchmark's complexity N (not positive when unset) and median time. */
  datatype Bench = Bench(complexityN: real, median: real)

  function Collected(results: seq<Bench>): seq<Measure> {
    if results == [] then []
    else
      var r := results[|results| - 1];
      Collected(results[..|results| - 1]) + (if r.complexityN > 0.0 then [Measure(r.complexityN, r.median)] else [])
  }

  method CollectRangeMeasure(results: seq<Bench>) returns (rm: seq<Measure>)
    ensures rm == Collected(results)
  {
    rm := [];
    for i := 0 to |results|
      invariant rm == Collected(results[..i])
    {
      assert results[..i + 1][..i] == results[..i];
      if results[i].complexityN > 0.0 {
        rm := rm + [Measure(results[i].complexityN, results[i].median)];
      }
    }
    assert results[..|results|] == results;
  }

  /** Exactly the benchmarks with a positive N are collected. */
  lemma {:induction false} CollectedIff(results: seq<Bench>, m: Measure)
    ensures m in Collected(results) <==> m.x > 0.0 && Bench(m.x, m.y) in results
  {
    if results != [] {
      CollectedIff(results[..|results| - 1], m);
      assert results == results[..|results| - 1] + [results[|results| - 1]];
    }
  }

  /** The linear fit of what was collected is defined as soon as one benchmark set its N. */
  method LinearFit(results: seq<Bench>) returns (fit: Fit)
    ensures fit.Fit? <==> exists r :: r in results && r.complexityN > 0.0
    ensures fit.Fit? ==> forall c :: SquaredError(fit.constant, Collected(results)) <= SquaredError(c, Collected(results))
  {
    var rm := CollectRangeMeasure(results);
    fit := FitConstant(rm);
    forall m ensures m in rm <==> m.x > 0.0 && Bench(m.x, m.y) in results { CollectedIff(results, m); }
    if r :| r in results && r.complexityN > 0.0 {
      assert Measure(r.complexityN, r.median) in rm;
    }
  }
}
