/** What the performance gates report, said of the timings, the draws and the weights alone. */
module GateMeaning {
  import opened Results
  import opened OrderStatistics
  import opened Performance
  import opened WeightedGate

  /** Taken as often as there are values, it is their sum. */
  ghost predicate IsMean(values: seq<real>, m: real) {
    0 < |values| && |values| as real * m == Sum(values)
  }

  /** The logarithm of candidate over baseline, pair by pair. */
  ghost predicate IsLogRatios(numerics: Numerics, pairs: seq<AcceptedPair>, logs: seq<real>) {
    && |logs| == |pairs|
    && forall i :: 0 <= i < |pairs| ==>
         && pairs[i].baseline > 0.0 && pairs[i].candidate > 0.0
         && logs[i] == numerics.log(pairs[i].candidate / pairs[i].baseline)
  }

  /** As many values as there are, each the one drawn for its column. */
  ghost predicate IsDrawn(numerics: Numerics, logs: seq<real>, seed: int, earlier: seq<nat>, replicates: nat, row: nat,
                          sample: seq<real>) {
    && |sample| == |logs|
    && forall column :: 0 <= column < |logs| ==>
         sample[column] == logs[numerics.draw(seed, earlier, replicates, |logs|, row, column) % |logs|]
  }

  ghost predicate IsReplicate(numerics: Numerics, logs: seq<real>, seed: int, earlier: seq<nat>, replicates: nat,
                              row: nat, m: real) {
    exists sample :: IsDrawn(numerics, logs, seed, earlier, replicates, row, sample) && IsMean(sample, m)
  }

  /** The exponential of the mean of a resample of a single shape. */
  ghost predicate IsExponential(numerics: Numerics, logs: seq<real>, seed: int, replicates: nat, row: nat,
                                value: real) {
    exists m :: IsReplicate(numerics, logs, seed, [], replicates, row, m) && value == numerics.exp(m)
  }

  /** The interval estimate of a point from its replicates. */
  ghost predicate Summarises(estimate: RatioEstimate, point: real, bootstrap: seq<real>, allowance: real) {
    && 0 < |bootstrap|
    && estimate.bounds == Some(Bounds(point, Percentile(bootstrap, 2.5), Percentile(bootstrap, 97.5),
                                      Percentile(bootstrap, 5.0), Percentile(bootstrap, 95.0)))
    && estimate.allowance == allowance
    && (estimate.outcome == Passed <==> Percentile(bootstrap, 95.0) <= 1.0 + allowance)
    && (estimate.outcome == Regression <==> Percentile(bootstrap, 5.0) > 1.0 + allowance)
    && estimate.outcome != InfrastructureInvalid
  }

  lemma EstimateSummarises(point: real, bootstrap: seq<real>, allowance: real, n: nat)
    requires 0 < |bootstrap|
    ensures Summarises(Estimate(point, bootstrap, allowance, n), point, bootstrap, allowance)
    ensures Estimate(point, bootstrap, allowance, n).acceptedPairs == n
  {
    hide Percentile;
    PercentileAscends(bootstrap, 5.0, 95.0);
  }

  // ---------------------------------------------------------------- one shape

  lemma LogRatioAt(numerics: Numerics, pairs: seq<AcceptedPair>, i: nat)
    requires AllPositive(pairs) && i < |pairs|
    ensures LogRatios(numerics, pairs)[i] == numerics.log(pairs[i].candidate / pairs[i].baseline)
  {
    assert LogRatios(numerics, pairs)[i] == numerics.log(pairs[i].Ratio());
    assert pairs[i].Ratio() == pairs[i].candidate / pairs[i].baseline;
  }

  lemma LogRatiosAre(numerics: Numerics, pairs: seq<AcceptedPair>, logs: seq<real>)
    requires AllPositive(pairs)
    ensures IsLogRatios(numerics, pairs, logs) <==> logs == LogRatios(numerics, pairs)
  {
    hide LogRatios;
    forall i | 0 <= i < |pairs|
      ensures pairs[i].baseline > 0.0 && pairs[i].candidate > 0.0
      ensures LogRatios(numerics, pairs)[i] == numerics.log(pairs[i].candidate / pairs[i].baseline)
    {
      assert pairs[i].Positive();
      LogRatioAt(numerics, pairs, i);
    }
  }

  lemma MeanIsTheMean(values: seq<real>, m: real)
    requires 0 < |values|
    ensures IsMean(values, m) <==> m == Mean(values)
  {
    hide Mean;
    MeanIsMean(values, m);
  }

  lemma MeanIsReplicate(numerics: Numerics, logs: seq<real>, seed: int, earlier: seq<nat>, replicates: nat, row: nat)
    requires 0 < |logs| && row < replicates
    ensures IsReplicate(numerics, logs, seed, earlier, replicates, row,
                        ResampledMeans(numerics, logs, seed, earlier, replicates)[row])
  {
    hide Mean;
    var sample := Resample(numerics, logs, seed, earlier, replicates, row);
    var m := ResampledMeans(numerics, logs, seed, earlier, replicates)[row];
    assert m == Mean(sample);
    MeanIsTheMean(sample, m);
    assert IsDrawn(numerics, logs, seed, earlier, replicates, row, sample);
  }

  /** A measured shape: the point is the exponential of the mean log ratio, every replicate the exponential of the
      mean of a full resample, and bounds and verdict are percentiles of the replicates. */
  lemma PairedGateMeans(numerics: Numerics, pairs: seq<AcceptedPair>, allowance: real, seed: int, replicates: int,
                        minimumPairs: int)
    returns (logs: seq<real>, m: real, bootstrap: seq<real>)
    requires 0.0 <= allowance && 1 <= replicates && 1 <= minimumPairs <= |pairs| && AllPositive(pairs)
    ensures IsLogRatios(numerics, pairs, logs) && IsMean(logs, m) && |bootstrap| == replicates
    ensures forall row :: 0 <= row < replicates ==>
              IsExponential(numerics, logs, seed, replicates, row, bootstrap[row])
    ensures var gate := PairedRatioGate(numerics, pairs, allowance, seed, replicates, minimumPairs);
            gate.Ok? && Summarises(gate.value, numerics.exp(m), bootstrap, allowance)
            && gate.value.acceptedPairs == |pairs|
  {
    hide Percentile, Mean, ResampledMeans, LogRatios, Summarises, IsReplicate, Estimate;
    logs := LogRatios(numerics, pairs);
    LogRatiosAre(numerics, pairs, logs);
    m := Mean(logs);
    MeanIsTheMean(logs, m);
    var means := ResampledMeans(numerics, logs, seed, [], replicates);
    bootstrap := Exponentials(numerics, means);
    forall row | 0 <= row < replicates
      ensures IsExponential(numerics, logs, seed, replicates, row, bootstrap[row])
    {
      MeanIsReplicate(numerics, logs, seed, [], replicates, row);
    }
    EstimateSummarises(numerics.exp(m), bootstrap, allowance, |pairs|);
  }

  /** When a shape raises, and why. */
  lemma PairedGateErrors(numerics: Numerics, pairs: seq<AcceptedPair>, allowance: real, seed: int, replicates: int,
                         minimumPairs: int)
    ensures var gate := PairedRatioGate(numerics, pairs, allowance, seed, replicates, minimumPairs);
            var badPolicy := allowance < 0.0 || replicates <= 0 || minimumPairs <= 0;
            var badTiming := exists p :: p in pairs && (p.baseline <= 0.0 || p.candidate <= 0.0);
            && (gate == Err(InvalidPolicy) <==> badPolicy)
            && (gate == Err(NonpositiveTiming) <==> !badPolicy && minimumPairs <= |pairs| && badTiming)
            && (gate.Ok? && |pairs| < minimumPairs ==>
                  gate.value == RatioEstimate(None, |pairs|, allowance, InfrastructureInvalid))
  {
    hide Percentile, Mean, ResampledMeans, LogRatios, Estimate;
    if !AllPositive(pairs) {
      var i :| 0 <= i < |pairs| && !pairs[i].Positive();
      assert pairs[i] in pairs;
    }
  }

  /** Reordering the pairs of a shape leaves its point estimate as it is. */
  lemma PointIgnoresOrder(numerics: Numerics, a: seq<AcceptedPair>, b: seq<AcceptedPair>, allowance: real, seed: int,
                          replicates: int, minimumPairs: int)
    requires multiset(a) == multiset(b)
    requires 0.0 <= allowance && 1 <= replicates && 1 <= minimumPairs <= |a| && AllPositive(a)
    ensures var first := PairedRatioGate(numerics, a, allowance, seed, replicates, minimumPairs);
            var second := PairedRatioGate(numerics, b, allowance, seed, replicates, minimumPairs);
            && first.Ok? && second.Ok? && first.value.bounds.Some? && second.value.bounds.Some?
            && first.value.bounds.value.point == second.value.bounds.value.point
  {
    hide Percentile, Mean, ResampledMeans, LogRatios, Estimate;
    PairsPermuted(a, b);
    LogsPermuted(numerics, a, b);
    MeanPermuted(LogRatios(numerics, a), LogRatios(numerics, b));
    var x, m, s := PairedGateMeans(numerics, a, allowance, seed, replicates, minimumPairs);
    var y, n, t := PairedGateMeans(numerics, b, allowance, seed, replicates, minimumPairs);
    LogRatiosAre(numerics, a, x);
    LogRatiosAre(numerics, b, y);
    MeanIsTheMean(x, m);
    MeanIsTheMean(y, n);
  }

  lemma PairsPermuted(a: seq<AcceptedPair>, b: seq<AcceptedPair>)
    requires multiset(a) == multiset(b)
    ensures |a| == |b| && (AllPositive(a) ==> AllPositive(b))
  {
    assert |multiset(a)| == |a| && |multiset(b)| == |b|;
    forall i | 0 <= i < |b| ensures b[i] in a {
      assert b[i] in multiset(b);
    }
  }

  lemma {:induction false} LogsPermuted(numerics: Numerics, a: seq<AcceptedPair>, b: seq<AcceptedPair>)
    requires multiset(a) == multiset(b) && AllPositive(a) && AllPositive(b)
    ensures multiset(LogRatios(numerics, a)) == multiset(LogRatios(numerics, b))
    decreases |a|
  {
    hide LogRatios;
    PairsPermuted(a, b);
    if a == [] {
      assert b == [];
    } else {
      assert a[0] in multiset(b);
      var i :| 0 <= i < |b| && b[i] == a[0];
      RemoveOne(a, 0);
      RemoveOne(b, i);
      var left, right := a[..0] + a[1..], b[..i] + b[i + 1..];
      LogsPermuted(numerics, left, right);
      LogsWithout(numerics, a, 0);
      LogsWithout(numerics, b, i);
    }
  }

  lemma LogsWithout(numerics: Numerics, pairs: seq<AcceptedPair>, i: nat)
    requires AllPositive(pairs) && i < |pairs|
    ensures AllPositive(pairs[..i] + pairs[i + 1..])
    ensures multiset(LogRatios(numerics, pairs))
            == multiset(LogRatios(numerics, pairs[..i] + pairs[i + 1..])) + multiset{numerics.log(pairs[i].Ratio())}
  {
    var logs := LogRatios(numerics, pairs);
    RemoveOne(logs, i);
    assert LogRatios(numerics, pairs[..i] + pairs[i + 1..]) == logs[..i] + logs[i + 1..];
    assert logs[i] in multiset(logs);
  }

  // ---------------------------------------------------------------- all shapes

  /** One value for each shape, times the weight of the shape. */
  ghost function Weighted<K(!new)>(w: Workload<K>, values: seq<real>): (products: seq<real>)
    requires w.Ordered() && w.SameShapes() && |values| <= |w.order|
    ensures |products| == |values|
  {
    seq(|values|, i requires 0 <= i < |values| => Times(w.weights[w.order[i]], values[i]))
  }

  lemma WeightedMore<K(!new)>(w: Workload<K>, values: seq<real>, more: real)
    requires w.Ordered() && w.SameShapes() && |values| < |w.order|
    ensures Sum(Weighted(w, values + [more])) == Sum(Weighted(w, values)) + Times(w.weights[w.order[|values|]], more)
  {
    hide Sum, Times;
    var product := [Times(w.weights[w.order[|values|]], more)];
    assert Weighted(w, values + [more]) == Weighted(w, values) + product;
    SumAdds(Weighted(w, values), product);
  }

  /** The sizes of the shapes before a place. */
  ghost predicate AreSizes<K(!new)>(w: Workload<K>, sizes: seq<nat>)
    requires w.Ordered()
  {
    |sizes| <= |w.order| && forall i :: 0 <= i < |sizes| ==> sizes[i] == |w.pairs[w.order[i]]|
  }

  lemma {:induction false} PointIsSum<K(!new)>(numerics: Numerics, w: Workload<K>, count: nat)
    returns (means: seq<real>)
    requires w.Ordered() && w.SameShapes() && w.Measured() && count <= |w.order|
    ensures |means| == count
    ensures forall i :: 0 <= i < count ==> IsMean(w.Logs(numerics, i), means[i])
    ensures w.Point(numerics, count) == Sum(Weighted(w, means))
  {
    hide Mean, Sum;
    if count == 0 {
      means := [];
      NoSum(Weighted(w, []));
    } else {
      var before := PointIsSum(numerics, w, count - 1);
      var logs := w.Logs(numerics, count - 1);
      means := before + [Mean(logs)];
      MeanIsTheMean(logs, Mean(logs));
      WeightedMore(w, before, Mean(logs));
    }
  }

  lemma NoSum(values: seq<real>)
    requires values == []
    ensures Sum(values) == 0.0
  {
  }

  lemma {:induction false} WeightedMeanIsSum<K(!new)>(numerics: Numerics, w: Workload<K>, row: nat, count: nat)
    returns (means: seq<real>)
    requires w.Ordered() && w.SameShapes() && w.Measured() && count <= |w.order| && row < w.replicates
    ensures |means| == count
    ensures forall i :: 0 <= i < count ==> means[i] == w.ShapeMeans(numerics, i)[row]
    ensures w.WeightedMean(numerics, count, row) == Sum(Weighted(w, means))
  {
    hide Sum, Workload.ShapeMeans;
    if count == 0 {
      means := [];
      NoSum(Weighted(w, []));
    } else {
      var before := WeightedMeanIsSum(numerics, w, row, count - 1);
      means := before + [w.ShapeMeans(numerics, count - 1)[row]];
      WeightedMore(w, before, w.ShapeMeans(numerics, count - 1)[row]);
    }
  }

  /** A replicate of the shape at a place, drawn from the one seed after the shapes before it. */
  ghost predicate IsDrawnInTurn<K(!new)>(numerics: Numerics, w: Workload<K>, logs: seq<real>, i: nat, row: nat, m: real)
    requires w.Ordered() && 0 <= w.replicates
  {
    exists sizes :: |sizes| == i && AreSizes(w, sizes)
                    && IsReplicate(numerics, logs, w.seed, sizes, w.replicates, row, m)
  }

  /** A replicate of every shape in one row. */
  ghost predicate IsRow<K(!new)>(numerics: Numerics, w: Workload<K>, logs: seq<seq<real>>, row: nat, means: seq<real>)
    requires w.Ordered() && 0 <= w.replicates
  {
    && |means| == |logs| == |w.order|
    && forall i :: 0 <= i < |logs| ==> IsDrawnInTurn(numerics, w, logs[i], i, row, means[i])
  }

  lemma RowOf<K(!new)>(numerics: Numerics, w: Workload<K>, logs: seq<seq<real>>, row: nat) returns (means: seq<real>)
    requires w.Ordered() && w.SameShapes() && w.Measured() && row < w.replicates && |logs| == |w.order|
    requires forall i :: 0 <= i < |logs| ==> logs[i] == w.Logs(numerics, i)
    ensures IsRow(numerics, w, logs, row, means)
    ensures w.WeightedMeans(numerics, |w.order|)[row] == Sum(Weighted(w, means))
  {
    hide Sum, ResampledMeans, IsReplicate, LogRatios, Workload.WeightedMean;
    means := WeightedMeanIsSum(numerics, w, row, |w.order|);
    forall i | 0 <= i < |logs|
      ensures IsDrawnInTurn(numerics, w, logs[i], i, row, means[i])
    {
      MeanIsReplicate(numerics, logs[i], w.seed, w.Earlier(i), w.replicates, row);
      assert AreSizes(w, w.Earlier(i)) && |w.Earlier(i)| == i;
      assert means[i] == w.ShapeMeans(numerics, i)[row];
    }
    assert w.WeightedMeans(numerics, |w.order|)[row] == w.WeightedMean(numerics, |w.order|, row);
  }

  lemma {:induction false} TotalIsSum<K(!new)>(w: Workload<K>, count: nat) returns (sizes: seq<real>)
    requires w.Ordered() && count <= |w.order|
    ensures |sizes| == count && forall i :: 0 <= i < count ==> sizes[i] == |w.pairs[w.order[i]]| as real
    ensures w.TotalPairs(count) as real == Sum(sizes)
  {
    hide Sum;
    sizes := [];
    if count == 0 {
      NoSum(sizes);
    } else {
      var before := TotalIsSum(w, count - 1);
      var size := |w.pairs[w.order[count - 1]]| as real;
      sizes := before + [size];
      SumAdds(before, [size]);
    }
  }

  /** The aggregate of measured shapes: its point is the exponential of the weighted sum of the shapes' mean log
      ratios, and each replicate that of the weighted sum of one replicate of every shape. */
  lemma AggregateMeans<K(!new)>(numerics: Numerics, w: Workload<K>)
    returns (logs: seq<seq<real>>, means: seq<real>, bootstrap: seq<real>, sizes: seq<real>)
    requires w.Ordered() && w.SameShapes() && w.Measured()
    ensures |logs| == |means| == |sizes| == |w.order|
    ensures forall i :: 0 <= i < |w.order| ==>
              && IsLogRatios(numerics, w.pairs[w.order[i]], logs[i]) && IsMean(logs[i], means[i])
              && sizes[i] == |w.pairs[w.order[i]]| as real
    ensures |bootstrap| == w.replicates
    ensures forall row :: 0 <= row < w.replicates ==>
              exists x :: IsRow(numerics, w, logs, row, x) && bootstrap[row] == numerics.exp(Sum(Weighted(w, x)))
    ensures Summarises(w.Aggregate(numerics), numerics.exp(Sum(Weighted(w, means))), bootstrap, w.aggregateAllowance)
    ensures w.Aggregate(numerics).acceptedPairs as real == Sum(sizes)
  {
    hide Percentile, Mean, Sum, LogRatios, Estimate, IsReplicate, Summarises, Workload.Point, Workload.WeightedMeans,
         Workload.TotalPairs;
    logs := seq(|w.order|, i requires 0 <= i < |w.order| => w.Logs(numerics, i));
    forall i | 0 <= i < |w.order| ensures IsLogRatios(numerics, w.pairs[w.order[i]], logs[i]) {
      LogRatiosAre(numerics, w.pairs[w.order[i]], logs[i]);
    }
    means := PointIsSum(numerics, w, |w.order|);
    sizes := TotalIsSum(w, |w.order|);
    bootstrap := Exponentials(numerics, w.WeightedMeans(numerics, |w.order|));
    forall row | 0 <= row < w.replicates
      ensures exists x :: IsRow(numerics, w, logs, row, x) && bootstrap[row] == numerics.exp(Sum(Weighted(w, x)))
    {
      var x := RowOf(numerics, w, logs, row);
    }
    EstimateSummarises(numerics.exp(w.Point(numerics, |w.order|)), bootstrap, w.aggregateAllowance,
                       w.TotalPairs(|w.order|));
  }

  lemma {:induction false} WeightsSum<K(!new)>(w: Workload<K>, ones: seq<real>)
    requires w.Ordered() && w.SameShapes() && |ones| <= |w.order| && forall i :: 0 <= i < |ones| ==> ones[i] == 1.0
    ensures w.WeightSum(|ones|) == Sum(Weighted(w, ones))
  {
    hide Sum;
    if ones == [] {
      NoSum(Weighted(w, ones));
    } else {
      var before := ones[..|ones| - 1];
      WeightsSum(w, before);
      WeightedMore(w, before, 1.0);
      assert ones == before + [1.0];
    }
  }

  /** Weights are accepted exactly when each is positive and they add up to one, give or take a billionth. */
  lemma AcceptedWeights<K(!new)>(w: Workload<K>, ones: seq<real>)
    requires w.Ordered() && w.SameShapes() && |ones| == |w.order| && forall i :: 0 <= i < |ones| ==> ones[i] == 1.0
    ensures w.WeightsAccepted()
            <==> (forall k :: k in w.weights ==> 0.0 < w.weights[k])
                 && 0.999999999 <= Sum(Weighted(w, ones)) <= 1.000000001
  {
    hide Sum;
    WeightsSum(w, ones);
  }
}
