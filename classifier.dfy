/**
 * `interpret` of pick-anomalies.py: classifies the weekly series of one
 * element at one station. Real arithmetic stands in for Python floats, and a
 * comparison `abs(x - mean) > k * stddev` is taken on squares, as
 * `(x - mean)^2 > k^2 * variance`, which is the same test because both sides
 * of the original are non-negative.
 */
module Classifier {
  import opened Wrappers
  import opened Config
  import opened SeriesCodec

  /** The `anomaly_details` dictionary `interpret` fills in for an anomaly. */
  datatype Details =
    | SigmaDetails(element: string, points: seq<int>, trimmed: seq<int>, mean: real, variance: real,
                   sigma1: seq<int>, sigma2: seq<int>, sigma3: seq<int>,
                   aggType: string, interval: int, percPoints: real)
    | RateDetails(element: string, points: seq<int>, trimmed: seq<int>,
                  aggType: string, interval: int, percPoints: real)

  /** `(has_anomaly, anomaly_details)`; `None` stands for the empty dictionary. */
  datatype Interpretation = Interpretation(anomalous: bool, details: Option<Details>)

  /** The exceptions `interpret` raises. */
  datatype Fault =
    | MissingElement(element: string)  // KeyError on `selected_elements[element]`
    | ZeroInterval                     // ZeroDivisionError computing the share of points
    | NoValidPoints                    // statistics.StatisticsError (a ValueError) from `mean([])`
    | UnknownAggType(aggType: string)  // the explicit `raise Exception`

  function Sq(x: real): real
  {
    x * x
  }

  /** The points of `data` other than the sentinel, in order. */
  function Trimmed(data: seq<int>): (r: seq<int>)
    ensures |r| <= |data|
    ensures forall x :: x in r <==> x in data && x != Unavailable
  {
    if data == [] then []
    else
      var front := Trimmed(data[..|data| - 1]);
      var x := data[|data| - 1];
      if x != Unavailable then front + [x] else front
  }

  /** Trimming keeps every other point as many times as it occurs, in any order, and drops every sentinel. */
  lemma {:induction false} TrimmedCounts(data: seq<int>)
    ensures multiset(Trimmed(data)) == multiset(data)[Unavailable := 0]
  {
    if data != [] {
      var front := data[..|data| - 1];
      var x := data[|data| - 1];
      TrimmedCounts(front);
      assert data == front + [x];
      assert multiset(data) == multiset(front) + multiset{x};
      if x != Unavailable {
        assert multiset(Trimmed(front) + [x]) == multiset(Trimmed(front)) + multiset{x};
      }
    }
  }

  function Total(xs: seq<int>): int
  {
    if xs == [] then 0 else Total(xs[..|xs| - 1]) + xs[|xs| - 1]
  }

  /** The sum of squared deviations of `xs` from `m`. */
  function SumSq(xs: seq<int>, m: real): (r: real)
    ensures r >= 0.0
  {
    if xs == [] then 0.0 else SumSq(xs[..|xs| - 1], m) + Sq(xs[|xs| - 1] as real - m)
  }

  /** `statistics.mean`. */
  function Mean(xs: seq<int>): real
    requires xs != []
  {
    Total(xs) as real / |xs| as real
  }

  /** The square of `statistics.pstdev` (the population variance). */
  function Variance(xs: seq<int>): (r: real)
    requires xs != []
    ensures r >= 0.0
  {
    SumSq(xs, Mean(xs)) / |xs| as real
  }

  /**
   * `x` is a real point whose squared deviation from `mean` exceeds `limit`;
   * with `limit` the variance times `k * k`, a point more than `k` standard
   * deviations away.
   */
  predicate Beyond(x: int, mean: real, limit: real)
  {
    x != Unavailable && Sq(x as real - mean) > limit
  }

  /** `[x for x in data if x != UNAVAILABLE_DATA_POINT and abs(x - mean) > k * stddev]`, with `limit` the variance times `k * k`. */
  function Band(data: seq<int>, mean: real, limit: real): (r: seq<int>)
    ensures |r| <= |data|
  {
    if data == [] then []
    else
      var front := Band(data[..|data| - 1], mean, limit);
      var x := data[|data| - 1];
      if Beyond(x, mean, limit) then front + [x] else front
  }

  /** `float(len(data)) / float(expected_data_pts)`. */
  function Share(data: seq<int>, interval: int): real
    requires interval != 0
  {
    |data| as real / interval as real
  }

  /** The average/sum branch of `interpret`: the completeness gate, then the sigma bands. */
  function SigmaClassify(element: string, data: seq<int>, spec: ElementSpec): (r: Result<Interpretation, Fault>)
    requires spec.interval != 0
    ensures r.Success? ==> (r.value.anomalous <==> r.value.details.Some?)
  {
    var trimmed := Trimmed(data);
    var perc := Share(data, spec.interval);
    if perc < 0.33 then Success(Interpretation(false, None))
    else if trimmed == [] then Failure(NoValidPoints)
    else
      var mean := Mean(trimmed);
      var variance := Variance(trimmed);
      var s1 := Band(data, mean, variance);
      var s2 := Band(data, mean, 4.0 * variance);
      var s3 := Band(data, mean, 9.0 * variance);
      if |s2| > 0 || |s3| > 0 then
        Success(Interpretation(true, Some(SigmaDetails(element, data, trimmed, mean, variance, s1, s2, s3,
                                                       spec.aggType, spec.interval, perc))))
      else Success(Interpretation(false, None))
  }

  /** The or_op branch of `interpret`: a rate threshold. */
  function RateClassify(element: string, data: seq<int>, spec: ElementSpec): (r: Interpretation)
    requires spec.interval != 0
    ensures r.anomalous <==> r.details.Some?
  {
    var perc := Share(data, spec.interval);
    if perc < 0.2 then
      Interpretation(true, Some(RateDetails(element, data, Trimmed(data), spec.aggType, spec.interval, perc)))
    else Interpretation(false, None)
  }

  /** `interpret(element, data, selected_elements)`. */
  function Interpret(element: string, data: seq<int>, selected: map<string, ElementSpec>): (r: Result<Interpretation, Fault>)
    ensures r.Success? ==> (r.value.anomalous <==> r.value.details.Some?)
    ensures r.Success? && r.value.details.Some? ==> r.value.details.value.element == element && r.value.details.value.points == data
  {
    if element !in selected then Failure(MissingElement(element))
    else
      var spec := selected[element];
      if spec.interval == 0 then Failure(ZeroInterval)
      else if spec.aggType == Average || spec.aggType == Sum then SigmaClassify(element, data, spec)
      else if spec.aggType == OrOp then Success(RateClassify(element, data, spec))
      else Failure(UnknownAggType(spec.aggType))
  }

  /** A band holds exactly the points of `data` beyond the limit. */
  lemma {:induction false} InBand(data: seq<int>, mean: real, limit: real, x: int)
    ensures x in Band(data, mean, limit) <==> x in data && Beyond(x, mean, limit)
    decreases |data|
  {
    if data != [] {
      var front, y := data[..|data| - 1], data[|data| - 1];
      InBand(front, mean, limit, x);
      assert data == front + [y];
      assert x in data <==> x in front || x == y;
    }
  }

  /** The band for a higher limit is a sub-multiset of the band for a lower one. */
  lemma {:induction false} BandWithin(data: seq<int>, mean: real, lo: real, hi: real)
    requires lo <= hi
    ensures multiset(Band(data, mean, hi)) <= multiset(Band(data, mean, lo))
    decreases |data|
  {
    if data != [] {
      BandWithin(data[..|data| - 1], mean, lo, hi);
    }
  }

  /** Every band is a sub-multiset of the trimmed data. */
  lemma {:induction false} BandInTrimmed(data: seq<int>, mean: real, limit: real)
    ensures multiset(Band(data, mean, limit)) <= multiset(Trimmed(data))
    decreases |data|
  {
    if data != [] {
      BandInTrimmed(data[..|data| - 1], mean, limit);
    }
  }

  /** A series has no valid point exactly when every point is the sentinel. */
  lemma TrimmedEmpty(data: seq<int>)
    ensures Trimmed(data) == [] <==> forall i :: 0 <= i < |data| ==> data[i] == Unavailable
  {
    if Trimmed(data) != [] {
      assert Trimmed(data)[0] in data;
    }
  }

  /**
   * The sigma bands of a reported anomaly: each holds only real points, the
   * 3-sigma band lies within the 2-sigma band, and that within the 1-sigma band.
   */
  lemma BandsNested(element: string, data: seq<int>, selected: map<string, ElementSpec>)
    requires Interpret(element, data, selected).Success?
    requires Interpret(element, data, selected).value.details.Some?
    requires Interpret(element, data, selected).value.details.value.SigmaDetails?
    ensures var d := Interpret(element, data, selected).value.details.value;
      && d.points == data && d.trimmed == Trimmed(data)
      && multiset(d.sigma3) <= multiset(d.sigma2)
      && multiset(d.sigma2) <= multiset(d.sigma1)
      && multiset(d.sigma1) <= multiset(d.trimmed)
      && Unavailable !in d.sigma1
  {
    var spec := selected[element];
    assert spec.aggType == Average || spec.aggType == Sum;
    var d := SigmaClassify(element, data, spec).value.details.value;
    BandWithin(data, d.mean, 4.0 * d.variance, 9.0 * d.variance);
    BandWithin(data, d.mean, d.variance, 4.0 * d.variance);
    BandInTrimmed(data, d.mean, d.variance);
    forall x | x in d.sigma1
      ensures x != Unavailable
    {
      InBand(data, d.mean, d.variance, x);
    }
  }

  /** Past the completeness gate, a series with valid points is anomalous exactly when a point lies beyond two standard deviations. */
  lemma SigmaFlag(element: string, data: seq<int>, spec: ElementSpec)
    requires spec.interval != 0 && Share(data, spec.interval) >= 0.33 && Trimmed(data) != []
    ensures var r := SigmaClassify(element, data, spec);
      var t := Trimmed(data);
      r.Success? && (r.value.anomalous <==> exists x :: x in data && Beyond(x, Mean(t), 4.0 * Variance(t)))
  {
    var t := Trimmed(data);
    var mean, limit := Mean(t), 4.0 * Variance(t);
    var s2, s3 := Band(data, mean, limit), Band(data, mean, 9.0 * Variance(t));
    var r := SigmaClassify(element, data, spec);
    assert r.Success? && (r.value.anomalous <==> |s2| > 0 || |s3| > 0);
    BandWithin(data, mean, limit, 9.0 * Variance(t));
    if |s3| > 0 {
      assert s3[0] in multiset(s2);
    }
    if |s2| > 0 {
      InBand(data, mean, limit, s2[0]);
    } else {
      forall x | x in data
        ensures !Beyond(x, mean, limit)
      {
        InBand(data, mean, limit, x);
      }
    }
  }

  /**
   * For average and sum elements: fewer than a third of the expected points
   * gives "not anomalous" with empty details; otherwise a series without a
   * valid point raises, and any other is anomalous exactly when some point lies
   * beyond two standard deviations of the mean of the valid points.
   */
  lemma SigmaRule(element: string, data: seq<int>, selected: map<string, ElementSpec>)
    requires element in selected && selected[element].interval != 0
    requires selected[element].aggType == Average || selected[element].aggType == Sum
    ensures var r := Interpret(element, data, selected);
      var perc := Share(data, selected[element].interval);
      var t := Trimmed(data);
      && (perc < 0.33 ==> r == Success(Interpretation(false, None)))
      && (perc >= 0.33 && t == [] ==> r == Failure(NoValidPoints))
      && (perc >= 0.33 && t != [] ==>
            r.Success? && (r.value.anomalous <==> exists x :: x in data && Beyond(x, Mean(t), 4.0 * Variance(t))))
  {
    var spec := selected[element];
    assert Interpret(element, data, selected) == SigmaClassify(element, data, spec);
    if Trimmed(data) != [] && Share(data, spec.interval) >= 0.33 {
      SigmaFlag(element, data, spec);
    }
  }

  /** or_op elements are anomalous exactly when fewer than a fifth of the expected points are present; their details carry no mean or deviation. */
  lemma RateRule(element: string, data: seq<int>, selected: map<string, ElementSpec>)
    requires element in selected && selected[element].interval != 0
    requires selected[element].aggType == OrOp
    ensures var r := Interpret(element, data, selected);
      && r.Success?
      && (r.value.anomalous <==> Share(data, selected[element].interval) < 0.2)
      && (r.value.details.Some? ==> r.value.details.value.RateDetails? && r.value.details.value.points == data)
  {
  }

  /**
   * `interpret` raises exactly for an element missing from the configuration,
   * a zero interval, an unknown aggregation type, or an average/sum series
   * past the completeness gate whose every point is the sentinel.
   */
  lemma Faults(element: string, data: seq<int>, selected: map<string, ElementSpec>)
    ensures Interpret(element, data, selected).Failure? <==>
      || element !in selected
      || selected[element].interval == 0
      || selected[element].aggType !in {Average, Sum, OrOp}
      || (&& selected[element].aggType in {Average, Sum}
          && Share(data, selected[element].interval) >= 0.33
          && forall i :: 0 <= i < |data| ==> data[i] == Unavailable)
  {
    TrimmedEmpty(data);
  }

  /** The deviations of `xs` from `m`. */
  function Deviations(xs: seq<int>, m: real): (r: seq<real>)
    ensures |r| == |xs|
    ensures forall i :: 0 <= i < |xs| ==> r[i] == xs[i] as real - m
  {
    if xs == [] then [] else Deviations(xs[..|xs| - 1], m) + [xs[|xs| - 1] as real - m]
  }

  function RSum(ds: seq<real>): real
  {
    if ds == [] then 0.0 else RSum(ds[..|ds| - 1]) + ds[|ds| - 1]
  }

  function RSumSq(ds: seq<real>): (r: real)
    ensures r >= 0.0
  {
    if ds == [] then 0.0 else RSumSq(ds[..|ds| - 1]) + Sq(ds[|ds| - 1])
  }

  /** `m` added up `n` times. */
  function Repeat(n: nat, m: real): real
  {
    if n == 0 then 0.0 else Repeat(n - 1, m) + m
  }

  lemma {:induction false} RepeatIsProduct(n: nat, m: real)
    ensures Repeat(n, m) == n as real * m
  {
    if n > 0 {
      RepeatIsProduct(n - 1, m);
      assert (n - 1) as real * m + m == n as real * m;
    }
  }

  lemma {:induction false} DeviationTotal(xs: seq<int>, m: real)
    ensures RSum(Deviations(xs, m)) == Total(xs) as real - Repeat(|xs|, m)
    decreases |xs|
  {
    if xs != [] {
      var front := xs[..|xs| - 1];
      DeviationTotal(front, m);
      assert Deviations(xs, m)[..|xs| - 1] == Deviations(front, m);
    }
  }

  lemma {:induction false} DeviationSquares(xs: seq<int>, m: real)
    ensures RSumSq(Deviations(xs, m)) == SumSq(xs, m)
    decreases |xs|
  {
    if xs != [] {
      var front := xs[..|xs| - 1];
      DeviationSquares(front, m);
      assert Deviations(xs, m)[..|xs| - 1] == Deviations(front, m);
    }
  }

  lemma {:induction false} SumsConcat(a: seq<real>, b: seq<real>)
    ensures RSum(a + b) == RSum(a) + RSum(b)
    ensures RSumSq(a + b) == RSumSq(a) + RSumSq(b)
    decreases |b|
  {
    if b == [] {
      assert a + b == a;
    } else {
      var front := b[..|b| - 1];
      SumsConcat(a, front);
      assert (a + b)[..|a + b| - 1] == a + front;
    }
  }

  /** The Cauchy-Schwarz inequality for a sum: its square is at most the count times the sum of squares. */
  lemma {:induction false} CauchySchwarz(ds: seq<real>)
    ensures Sq(RSum(ds)) <= |ds| as real * RSumSq(ds)
    decreases |ds|
  {
    if ds != [] {
      var front := ds[..|ds| - 1];
      CauchySchwarz(front);
      assert front == [] ==> RSum(front) == 0.0 && RSumSq(front) == 0.0;
      assert RSum(ds) == RSum(front) + ds[|ds| - 1];
      assert RSumSq(ds) == RSumSq(front) + Sq(ds[|ds| - 1]);
      CauchySchwarzStep(RSum(front), RSumSq(front), |front|, ds[|ds| - 1], RSum(ds), RSumSq(ds), |ds|);
    }
  }

  /** One more term keeps the Cauchy-Schwarz bound. */
  lemma CauchySchwarzStep(s: real, q: real, n: nat, e: real, t: real, r: real, k: nat)
    requires Sq(s) <= n as real * q && q >= 0.0
    requires n == 0 ==> s == 0.0 && q == 0.0
    requires t == s + e && r == q + Sq(e) && k == n + 1
    ensures Sq(t) <= k as real * r
  {
    var m := n as real;
    if n > 0 {
      assert m * (q + m * e * e - 2.0 * s * e) >= Sq(s - m * e) by {
        assert m * q >= s * s;
      }
      SqNonNegative(s - m * e);
      PositiveFactor(m, q + m * e * e - 2.0 * s * e);
    }
    assert Sq(s + e) == s * s + 2.0 * s * e + e * e;
    assert (m + 1.0) * (q + e * e) == m * q + q + m * e * e + e * e;
  }

  lemma SqNonNegative(x: real)
    ensures Sq(x) >= 0.0
  {
  }

  lemma PositiveFactor(n: real, y: real)
    requires n > 0.0 && n * y >= 0.0
    ensures y >= 0.0
  {
  }

  lemma SqNeg(d: real, e: real)
    requires e == -d
    ensures Sq(e) == Sq(d)
  {
  }

  /** Samuelson's bound on one squared deviation `d` of `n` points whose squared deviations sum to `total`. */
  predicate Samuelson(n: nat, d: real, total: real)
  {
    n as real * d <= (n as real - 1.0) * total
  }

  lemma Rearrange(n: nat, k: nat, d: real, total: real, rest: real)
    requires k + 1 == n && total == rest + d && d <= k as real * rest
    ensures Samuelson(n, d, total)
  {
    assert n as real - 1.0 == k as real;
    assert k as real * total == k as real * rest + k as real * d;
  }

  /** Taking one value out of a sequence: the sums of the rest. */
  lemma SplitSums(ds: seq<real>, i: int) returns (rest: seq<real>)
    requires 0 <= i < |ds|
    ensures |rest| + 1 == |ds|
    ensures RSum(ds) == RSum(rest) + ds[i] && RSumSq(ds) == RSumSq(rest) + Sq(ds[i])
  {
    var d := ds[i];
    rest := ds[..i] + ds[i + 1..];
    assert ds == ds[..i] + [d] + ds[i + 1..];
    SumsConcat(ds[..i], [d]);
    SumsConcat(ds[..i] + [d], ds[i + 1..]);
    SumsConcat(ds[..i], ds[i + 1..]);
    assert RSum([d]) == d && RSumSq([d]) == Sq(d);
  }

  /** For deviations that add up to zero, `n` times any squared deviation is at most `n - 1` times their sum of squares. */
  lemma SamuelsonDeviations(ds: seq<real>, i: int)
    requires 0 <= i < |ds| && RSum(ds) == 0.0
    ensures Samuelson(|ds|, Sq(ds[i]), RSumSq(ds))
  {
    var rest := SplitSums(ds, i);
    SqNeg(ds[i], RSum(rest));
    CauchySchwarz(rest);
    Rearrange(|ds|, |rest|, Sq(ds[i]), RSumSq(ds), RSumSq(rest));
  }

  lemma FewArith(n: nat, d: real, total: real, variance: real)
    requires 1 <= n <= 5 && total >= 0.0 && Repeat(n, variance) == total
    requires Samuelson(n, d, total)
    ensures d <= 4.0 * variance
  {
    assert Repeat(1, variance) == variance;
    if n == 2 {
      assert Repeat(2, variance) == variance + variance;
    } else if n == 3 {
      assert Repeat(3, variance) == Repeat(2, variance) + variance == variance + variance + variance;
    } else if n == 4 {
      assert Repeat(3, variance) == Repeat(2, variance) + variance == variance + variance + variance;
      assert Repeat(4, variance) == variance + variance + variance + variance;
    } else if n == 5 {
      assert Repeat(3, variance) == Repeat(2, variance) + variance == variance + variance + variance;
      assert Repeat(4, variance) == variance + variance + variance + variance;
      assert Repeat(5, variance) == variance + variance + variance + variance + variance;
    }
  }

  /** Deviations from the mean add up to zero. */
  lemma CentredAtMean(xs: seq<int>, m: real)
    requires Repeat(|xs|, m) == Total(xs) as real
    ensures RSum(Deviations(xs, m)) == 0.0
  {
    DeviationTotal(xs, m);
  }

  lemma Unscale(n: nat, t: real, q: real)
    requires n > 0 && q == t / n as real
    ensures Repeat(n, q) == t
  {
    RepeatIsProduct(n, q);
  }

  /** `statistics.mean` times the count is the total. */
  lemma MeanScaled(xs: seq<int>)
    requires xs != []
    ensures Repeat(|xs|, Mean(xs)) == Total(xs) as real
  {
    Unscale(|xs|, Total(xs) as real, Mean(xs));
  }

  /** The variance times the count is the sum of squared deviations. */
  lemma VarianceScaled(xs: seq<int>)
    requires xs != []
    ensures Repeat(|xs|, Variance(xs)) == SumSq(xs, Mean(xs))
  {
    Unscale(|xs|, SumSq(xs, Mean(xs)), Variance(xs));
  }

  /**
   * With at most five valid points, no point lies beyond two standard
   * deviations of their mean (Samuelson's inequality bounds every deviation
   * by `sqrt(n - 1)` standard deviations, which is two at five points).
   */
  lemma FewPointsWithinTwoSigma(xs: seq<int>, x: int, m: real, v: real)
    requires 0 < |xs| <= 5 && x in xs
    requires Repeat(|xs|, m) == Total(xs) as real && Repeat(|xs|, v) == SumSq(xs, m)
    ensures !(Sq(x as real - m) > 4.0 * v)
  {
    var i :| 0 <= i < |xs| && xs[i] == x;
    CentredAtMean(xs, m);
    var d, total := SamuelsonAround(xs, m, i, x);
    FewArith(|xs|, d, total, v);
  }

  lemma SamuelsonAround(xs: seq<int>, m: real, i: int, x: int) returns (d: real, total: real)
    requires 0 <= i < |xs| && xs[i] == x && RSum(Deviations(xs, m)) == 0.0
    ensures d == Sq(x as real - m) && total == SumSq(xs, m)
    ensures Samuelson(|xs|, d, total)
  {
    d, total := Sq(x as real - m), SumSq(xs, m);
    var ds := Deviations(xs, m);
    DeviationSquares(xs, m);
    SamuelsonDeviations(ds, i);
    assert ds[i] == x as real - m;
  }

  /**
   * An average or sum series with at most five valid points is never
   * reported: past the completeness gate no point can lie beyond two
   * standard deviations.
   */
  lemma FewPointsNotFlagged(element: string, data: seq<int>, selected: map<string, ElementSpec>)
    requires element in selected
    requires selected[element].aggType == Average || selected[element].aggType == Sum
    requires |Trimmed(data)| <= 5
    ensures Interpret(element, data, selected).Success? ==> !Interpret(element, data, selected).value.anomalous
  {
    var spec := selected[element];
    var t := Trimmed(data);
    if spec.interval != 0 && Share(data, spec.interval) >= 0.33 && t != [] {
      SigmaFlag(element, data, spec);
      FewPointsNoneBeyond(data);
    }
  }

  lemma FewPointsNoneBeyond(data: seq<int>)
    requires 0 < |Trimmed(data)| <= 5
    ensures forall x :: x in data ==> !Beyond(x, Mean(Trimmed(data)), 4.0 * Variance(Trimmed(data)))
  {
    var t := Trimmed(data);
    MeanScaled(t);
    VarianceScaled(t);
    forall x | x in data
      ensures !Beyond(x, Mean(t), 4.0 * Variance(t))
    {
      if x != Unavailable {
        FewPointsWithinTwoSigma(t, x, Mean(t), Variance(t));
      }
    }
  }

  lemma {:induction false} ConstantTotal(xs: seq<int>, c: int)
    requires forall i :: 0 <= i < |xs| ==> xs[i] == c
    ensures Total(xs) as real == Repeat(|xs|, c as real)
    decreases |xs|
  {
    if xs != [] {
      ConstantTotal(xs[..|xs| - 1], c);
    }
  }

  lemma RepeatCancel(n: nat, a: real, b: real)
    requires n > 0 && Repeat(n, a) == Repeat(n, b)
    ensures a == b
  {
    RepeatIsProduct(n, a);
    RepeatIsProduct(n, b);
    assert n as real * (a - b) == 0.0;
  }

  /** The mean of a constant series is that constant. */
  lemma ConstantMean(xs: seq<int>, c: int)
    requires xs != [] && forall i :: 0 <= i < |xs| ==> xs[i] == c
    ensures Mean(xs) == c as real
  {
    MeanScaled(xs);
    ConstantTotal(xs, c);
    RepeatCancel(|xs|, Mean(xs), c as real);
  }

  /** A series whose valid points are all equal (zero deviation) is never reported. */
  lemma ConstantNotFlagged(element: string, data: seq<int>, selected: map<string, ElementSpec>, c: int)
    requires element in selected
    requires selected[element].aggType == Average || selected[element].aggType == Sum
    requires forall i :: 0 <= i < |data| ==> data[i] == c || data[i] == Unavailable
    ensures Interpret(element, data, selected).Success? ==> !Interpret(element, data, selected).value.anomalous
  {
    var spec := selected[element];
    var t := Trimmed(data);
    if spec.interval != 0 && Share(data, spec.interval) >= 0.33 && t != [] {
      SigmaFlag(element, data, spec);
      forall i | 0 <= i < |t|
        ensures t[i] == c
      {
        assert t[i] in t;
      }
      ConstantMean(t, c);
      forall x | x in data
        ensures !Beyond(x, Mean(t), 4.0 * Variance(t))
      {
      }
    }
  }
}
