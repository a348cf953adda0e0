/** Aggregating the load of the shards, over exact reals. The map may be visited in any order. */
module ShardLoads {

  type Loads = map<string, int>

  /** The sum of a measure of all loads. */
  ghost function Sum(loads: Loads, f: int -> real): real {
    if loads == map[] then 0.0
    else var k :| k in loads; f(loads[k]) + Sum(loads - {k}, f)
  }

  lemma {:induction false} SumFrom(loads: Loads, k: string, f: int -> real)
    requires k in loads
    ensures Sum(loads, f) == f(loads[k]) + Sum(loads - {k}, f)
  {
    var j :| j in loads && Sum(loads, f) == f(loads[j]) + Sum(loads - {j}, f);
    if j != k {
      SumFrom(loads - {j}, k, f);
      SumFrom(loads - {k}, j, f);
      assert loads - {j} - {k} == loads - {k} - {j};
    }
  }

  lemma {:induction false} SumAdds(loads: Loads, f: int -> real, g: int -> real, h: int -> real)
    requires forall x :: f(x) == g(x) + h(x)
    ensures Sum(loads, f) == Sum(loads, g) + Sum(loads, h)
  {
    if loads != map[] {
      var k :| k in loads;
      SumFrom(loads, k, f);
      SumFrom(loads, k, g);
      SumFrom(loads, k, h);
      SumAdds(loads - {k}, f, g, h);
    }
  }

  lemma Distribute(c: real, x: real, y: real)
    ensures c * (x + y) == c * x + c * y
  {
  }

  lemma {:induction false} SumScales(loads: Loads, f: int -> real, g: int -> real, c: real)
    requires forall x :: f(x) == c * g(x)
    ensures Sum(loads, f) == c * Sum(loads, g)
  {
    if loads != map[] {
      var k :| k in loads;
      var rest := loads - {k};
      SumFrom(loads, k, f);
      SumFrom(loads, k, g);
      SumScales(rest, f, g, c);
      Distribute(c, g(loads[k]), Sum(rest, g));
    }
  }

  lemma SumOfNone(f: int -> real)
    ensures Sum(map[], f) == 0.0
  {
  }

  lemma {:induction false} SumCounts(loads: Loads, one: int -> real)
    requires forall x :: one(x) == 1.0
    ensures Sum(loads, one) == |loads| as real
  {
    if loads != map[] {
      var k :| k in loads;
      SumFrom(loads, k, one);
      SumCounts(loads - {k}, one);
    }
  }

  lemma {:induction false} SumZeroExactly(loads: Loads, f: int -> real)
    requires forall x :: 0.0 <= f(x)
    ensures 0.0 <= Sum(loads, f)
    ensures Sum(loads, f) == 0.0 <==> forall k <- loads :: f(loads[k]) == 0.0
  {
    if loads != map[] {
      var k :| k in loads;
      var rest := loads - {k};
      SumFrom(loads, k, f);
      SumZeroExactly(rest, f);
      forall j <- loads | j != k ensures j in rest && rest[j] == loads[j] {
      }
    }
  }

  // ----- One pass or two -----

  /** The variance as the code computes it, from what it has summed up in one pass. */
  function OnePassVariance(count: nat, sum: real, sumSquares: real): real
    requires 1 < count
  {
    var mean := sum / count as real;
    (sumSquares - sum * mean) / (count - 1) as real
  }

  function Product(a: real, b: real): real {
    a * b
  }

  function Square(d: real): real {
    Product(d, d)
  }

  const LOAD: int -> real := x => x as real
  const SQUARE: int -> real := x => Square(x as real)

  const ONE: int -> real := x => 1.0

  function SquaredDistance(c: real): int -> real {
    x => Square(x as real - c)
  }

  ghost function Mean(loads: Loads): real
    requires loads != map[]
  {
    Sum(loads, LOAD) / |loads| as real
  }

  /** The sample variance as it is defined: the mean first, then the distances from it. */
  ghost function SampleVariance(loads: Loads): real
    requires 1 < |loads|
  {
    Sum(loads, SquaredDistance(Mean(loads))) / (|loads| - 1) as real
  }

  lemma Expand(x: real, c: real)
    ensures Square(x - c) == Square(x) + ((-2.0 * c) * x + (c * c) * 1.0)
  {
  }

  lemma SumCombines(loads: Loads, f: int -> real, g: int -> real, h: int -> real, a: real, b: real)
    requires forall x :: f(x) == g(x) + (a * h(x) + b * ONE(x))
    ensures Sum(loads, f) == Sum(loads, g) + (a * Sum(loads, h) + b * |loads| as real)
  {
    hide Sum;
    var linear: int -> real := x => a * h(x);
    var constant: int -> real := x => b * ONE(x);
    var affine: int -> real := x => linear(x) + constant(x);
    SumAdds(loads, f, g, affine);
    SumAdds(loads, affine, linear, constant);
    SumScales(loads, linear, h, a);
    SumScales(loads, constant, ONE, b);
    SumCounts(loads, ONE);
  }

  lemma DistanceExpands(c: real)
    ensures forall x :: SquaredDistance(c)(x) == SQUARE(x) + ((-2.0 * c) * LOAD(x) + (c * c) * ONE(x))
  {
    hide Square, Product;
    forall x ensures SquaredDistance(c)(x) == SQUARE(x) + ((-2.0 * c) * LOAD(x) + (c * c) * ONE(x)) {
      Expand(x as real, c);
    }
  }

  /** The spread about any centre follows from the sum and the sum of squares. */
  lemma SpreadAbout(loads: Loads, c: real)
    ensures Sum(loads, SquaredDistance(c))
            == Sum(loads, SQUARE) + ((-2.0 * c) * Sum(loads, LOAD) + (c * c) * |loads| as real)
  {
    hide Sum, Square, Product, SquaredDistance;
    DistanceExpands(c);
    SumCombines(loads, SquaredDistance(c), SQUARE, LOAD, -2.0 * c, c * c);
  }

  lemma CentreOfMass(sum: real, n: real, mean: real, c: real)
    requires 0.0 < n && mean == sum / n
    ensures (-2.0 * mean) * sum + (mean * mean) * n == -(sum * mean)
    ensures -(sum * mean) <= (-2.0 * c) * sum + (c * c) * n
  {
    assert mean * n == sum;
    assert (mean * mean) * n == mean * (mean * n);
    assert (c - mean) * (c - mean) * n == (c * c) * n - 2.0 * c * (mean * n) + mean * (mean * n);
    assert 0.0 <= (c - mean) * (c - mean);
    assert 0.0 <= (c - mean) * (c - mean) * n;
  }

  /** No centre has a smaller spread than the mean. */
  lemma MeanIsClosest(loads: Loads, c: real)
    requires loads != map[]
    ensures Sum(loads, SquaredDistance(Mean(loads))) == Sum(loads, SQUARE) - Sum(loads, LOAD) * Mean(loads)
    ensures Sum(loads, SquaredDistance(Mean(loads))) <= Sum(loads, SquaredDistance(c))
  {
    hide Sum;
    SpreadAbout(loads, Mean(loads));
    SpreadAbout(loads, c);
    CentreOfMass(Sum(loads, LOAD), |loads| as real, Mean(loads), c);
  }

  lemma ProductPositive(a: real, b: real)
    requires (0.0 < a && 0.0 < b) || (a < 0.0 && b < 0.0)
    ensures 0.0 < Product(a, b)
  {
  }

  lemma SquareZeroExactly(d: real)
    ensures Square(0.0) == 0.0
    ensures d != 0.0 ==> 0.0 < Square(d)
  {
    assert Square(0.0) == 0.0;
    if d != 0.0 {
      hide Product;
      ProductPositive(d, d);
    }
  }

  lemma SpreadZeroExactly(loads: Loads, c: real)
    ensures 0.0 <= Sum(loads, SquaredDistance(c))
    ensures Sum(loads, SquaredDistance(c)) == 0.0 <==> forall k <- loads :: loads[k] as real == c
  {
    hide Sum, Square;
    forall x
      ensures x as real == c ==> SquaredDistance(c)(x) == 0.0
      ensures x as real != c ==> 0.0 < SquaredDistance(c)(x)
    {
      SquareZeroExactly(x as real - c);
    }
    SumZeroExactly(loads, SquaredDistance(c));
  }

  lemma OnePassOf(count: nat, sum: real, sumSquares: real, spread: real)
    requires 1 < count && 0.0 <= spread == sumSquares - sum * (sum / count as real)
    ensures OnePassVariance(count, sum, sumSquares) == spread / (count - 1) as real
    ensures 0.0 <= spread / (count - 1) as real
    ensures spread / (count - 1) as real == 0.0 ==> spread == 0.0
  {
    var variance := spread / (count - 1) as real;
    assert variance * (count - 1) as real == spread;
  }

  /** What the code computes in one pass is the sample variance: never negative, zero only for equal loads. */
  lemma OnePassIsSampleVariance(loads: Loads)
    requires 1 < |loads|
    ensures OnePassVariance(|loads|, Sum(loads, LOAD), Sum(loads, SQUARE)) == SampleVariance(loads)
    ensures 0.0 <= SampleVariance(loads)
    ensures SampleVariance(loads) == 0.0 <==> forall j <- loads, k <- loads :: loads[j] == loads[k]
  {
    hide Sum, Square, OnePassVariance;
    var k :| k in loads;
    var spread := Sum(loads, SquaredDistance(Mean(loads)));
    MeanIsClosest(loads, loads[k] as real);
    SpreadZeroExactly(loads, loads[k] as real);
    SpreadZeroExactly(loads, Mean(loads));
    OnePassOf(|loads|, Sum(loads, LOAD), Sum(loads, SQUARE), spread);
    if SampleVariance(loads) == 0.0 {
      forall j <- loads, i <- loads ensures loads[j] == loads[i] {
        assert loads[j] as real == Mean(loads) == loads[i] as real;
      }
    }
  }

  lemma RootOfItself(v: real)
    ensures Square(v) == v <==> v == 0.0 || v == 1.0
  {
    if v != 0.0 && v != 1.0 {
      assert v * (v - 1.0) != 0.0;
    }
  }

  /** The deviation reported is the root of the variance in two cases only. */
  lemma DeviationIsRootExactly(loads: Loads)
    requires 1 < |loads|
    ensures Square(SampleVariance(loads)) == SampleVariance(loads) <==>
            SampleVariance(loads) == 0.0 || SampleVariance(loads) == 1.0
  {
    hide SampleVariance, Square;
    RootOfItself(SampleVariance(loads));
  }

  lemma SumOfTwo(loads: Loads, f: int -> real)
    requires loads == map["a" := 0, "b" := 2]
    ensures Sum(loads, f) == f(0) + f(2)
  {
    hide Sum;
    assert loads - {"a"} == map["b" := 2] && loads - {"a"} - {"b"} == map[];
    SumFrom(loads, "a", f);
    SumFrom(loads - {"a"}, "b", f);
    SumOfNone(f);
  }

  /** Two shards with loads 0 and 2: the variance is 2, and so is the deviation reported. */
  lemma DeviationIsNotTheRoot(loads: Loads)
    requires loads == map["a" := 0, "b" := 2]
    ensures SampleVariance(loads) == 2.0
  {
    hide Sum;
    assert |loads| == 2;
    SumOfTwo(loads, LOAD);
    assert Mean(loads) == 1.0;
    SumOfTwo(loads, SquaredDistance(1.0));
  }

  /** The deviation reported is the sample variance, without a square root. */
  method Aggregate(loads: Loads) returns (max: int, min: int, deviation: real)
    ensures loads == map[] ==> max == min == 0
    ensures loads != map[] ==> max in loads.Values && min in loads.Values
    ensures forall k <- loads :: min <= loads[k] <= max
    ensures deviation == if 1 < |loads| then SampleVariance(loads) else 0.0
    ensures 1 < |loads| ==>
              (Square(deviation) == SampleVariance(loads) <==>
               SampleVariance(loads) == 0.0 || SampleVariance(loads) == 1.0)
  {
    hide Sum, Square, OnePassVariance, SampleVariance;
    max, min := 0, 0;
    var sum, sumSquares, first := 0.0, 0.0, true;
    var rest := loads;
    while rest != map[]
      invariant first <==> rest == loads
      invariant forall k <- rest :: k in loads && rest[k] == loads[k]
      invariant first ==> max == min == 0
      invariant !first ==> max in loads.Values && min in loads.Values
      invariant forall k <- loads :: k in rest || min <= loads[k] <= max
      invariant sum + Sum(rest, LOAD) == Sum(loads, LOAD)
      invariant sumSquares + Sum(rest, SQUARE) == Sum(loads, SQUARE)
      decreases rest.Keys
    {
      var k :| k in rest;
      var load := rest[k];
      SumFrom(rest, k, LOAD);
      SumFrom(rest, k, SQUARE);
      if first {
        max, min, first := load, load, false;
      } else {
        if load > max {
          max := load;
        }
        if load < min {
          min := load;
        }
      }
      sum := sum + load as real;
      sumSquares := sumSquares + Square(load as real);
      rest := rest - {k};
    }
    SumOfNone(LOAD);
    SumOfNone(SQUARE);
    deviation := 0.0;
    if 1 < |loads| {
      OnePassIsSampleVariance(loads);
      var variance := OnePassVariance(|loads|, sum, sumSquares);
      if variance > 0.0 {
        deviation := variance;
      }
      DeviationIsRootExactly(loads);
    }
  }
}
