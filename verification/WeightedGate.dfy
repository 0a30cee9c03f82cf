/** The weighted gate over all shapes: a loop over the sorted shapes, proved against its specification. */
module WeightedGate {
  import opened Results
  import opened OrderStatistics
  import opened Performance

  /** The workload: the shapes in sorted order, what was measured, and the locked policy. */
  datatype Workload<!K(==,!new)> = Workload(
    order: seq<K>,
    pairs: map<K, seq<AcceptedPair>>,
    weights: map<K, real>,
    allowances: map<K, real>,
    aggregateAllowance: real,
    seed: int,
    replicates: int,
    minimumPairs: int
  ) {
    /** The order lists every measured shape once. */
    ghost predicate Ordered() {
      && (forall i, j :: 0 <= i < j < |order| ==> order[i] != order[j])
      && (forall k :: k in order <==> k in pairs)
    }

    predicate SameShapes() {
      pairs.Keys == weights.Keys == allowances.Keys
    }

    function WeightSum(count: nat): real
      requires count <= |order| && forall k :: k in order ==> k in weights
    {
      if count == 0 then 0.0 else WeightSum(count - 1) + weights[order[count - 1]]
    }

    predicate WeightsAccepted()
      requires Ordered() && SameShapes()
    {
      -0.000000001 <= WeightSum(|order|) - 1.0 <= 0.000000001
      && forall k :: k in weights ==> weights[k] > 0.0
    }

    /** The gate of the shape at a place of the order, with its own seed. */
    function Shape(numerics: Numerics, i: nat): Result<RatioEstimate, PerformanceError>
      requires i < |order| && forall k :: k in order ==> k in pairs && k in allowances
    {
      PairedRatioGate(numerics, pairs[order[i]], allowances[order[i]], seed + i + 1, replicates, minimumPairs)
    }

    /** The sizes the aggregate's generator has drawn before the shape at a place. */
    function Earlier(i: nat): (sizes: seq<nat>)
      requires i <= |order| && forall k :: k in order ==> k in pairs
      ensures |sizes| == i
    {
      seq(i, j requires 0 <= j < i => |pairs[order[j]]|)
    }

    /** Every shape has enough pairs of positive timings. */
    ghost predicate Measured()
      requires Ordered() && SameShapes()
    {
      && replicates >= 1 && minimumPairs >= 1
      && (forall k :: k in pairs ==> |pairs[k]| >= minimumPairs && AllPositive(pairs[k]) && allowances[k] >= 0.0)
    }

    /** The weighted mean of the log ratios of the first shapes. */
    ghost function Point(numerics: Numerics, count: nat): real
      requires Ordered() && SameShapes() && Measured() && count <= |order|
    {
      if count == 0 then 0.0
      else Point(numerics, count - 1) + Times(weights[order[count - 1]], Mean(Logs(numerics, count - 1)))
    }

    ghost function Logs(numerics: Numerics, i: nat): (logs: seq<real>)
      requires Ordered() && SameShapes() && Measured() && i < |order|
      ensures 0 < |logs|
    {
      LogRatios(numerics, pairs[order[i]])
    }

    /** The resampled means of one shape, drawn after the shapes before it. */
    ghost function ShapeMeans(numerics: Numerics, i: nat): (means: seq<real>)
      requires Ordered() && SameShapes() && Measured() && i < |order|
      ensures |means| == replicates
    {
      ResampledMeans(numerics, Logs(numerics, i), seed, Earlier(i), replicates)
    }

    /** The weighted mean of one resample of each of the first shapes. */
    ghost function WeightedMean(numerics: Numerics, count: nat, row: nat): real
      requires Ordered() && SameShapes() && Measured() && count <= |order| && row < replicates
    {
      if count == 0 then 0.0
      else WeightedMean(numerics, count - 1, row)
           + Times(weights[order[count - 1]], ShapeMeans(numerics, count - 1)[row])
    }

    ghost function WeightedMeans(numerics: Numerics, count: nat): (means: seq<real>)
      requires Ordered() && SameShapes() && Measured() && count <= |order|
      ensures |means| == replicates
    {
      seq(replicates, row requires 0 <= row < replicates => WeightedMean(numerics, count, row))
    }

    function TotalPairs(count: nat): nat
      requires count <= |order| && forall k :: k in order ==> k in pairs
    {
      if count == 0 then 0 else TotalPairs(count - 1) + |pairs[order[count - 1]]|
    }

    /** The aggregate when every shape was measured. */
    ghost function Aggregate(numerics: Numerics): RatioEstimate
      requires Ordered() && SameShapes() && Measured()
    {
      Estimate(numerics.exp(Point(numerics, |order|)),
               Exponentials(numerics, WeightedMeans(numerics, |order|)),
               aggregateAllowance, TotalPairs(|order|))
    }
  }

  /** The worst of a list of outcomes: infrastructure, then regression, then inconclusive. */
  ghost predicate IsWorst(outcomes: seq<GateOutcome>, worst: GateOutcome) {
    && (worst == Passed || worst in outcomes)
    && forall o :: o in outcomes ==> Rank(o) <= Rank(worst)
  }

  /** There is one worst outcome. */
  lemma WorstUnique(outcomes: seq<GateOutcome>, a: GateOutcome, b: GateOutcome)
    requires IsWorst(outcomes, a) && IsWorst(outcomes, b)
    ensures a == b
  {
  }

  method Overall(outcomes: seq<GateOutcome>) returns (worst: GateOutcome)
    ensures IsWorst(outcomes, worst)
  {
    var severities := [InfrastructureInvalid, Regression, Inconclusive];
    for i := 0 to 3
      invariant forall o :: o in outcomes ==> Rank(o) <= 3 - i
    {
      if severities[i] in outcomes {
        return severities[i];
      }
    }
    return Passed;
  }

  function Outcomes(estimates: seq<RatioEstimate>): (outcomes: seq<GateOutcome>)
    ensures |outcomes| == |estimates|
  {
    seq(|estimates|, i requires 0 <= i < |estimates| => estimates[i].outcome)
  }

  /** What a returned gate says of its workload. */
  ghost predicate IsGate<K(!new)>(numerics: Numerics, w: Workload<K>, gate: PerformanceGate)
    requires w.Ordered() && w.SameShapes()
  {
    && |gate.shapes| == |w.order|
    && (forall i :: 0 <= i < |w.order| ==> w.Shape(numerics, i) == Ok(gate.shapes[i]))
    && gate.aggregate.allowance == w.aggregateAllowance
    && ((exists k :: k in w.pairs && |w.pairs[k]| < w.minimumPairs) ==>
          && gate.aggregate.outcome == InfrastructureInvalid && gate.aggregate.bounds == None
          && (exists k :: k in w.pairs && |w.pairs[k]| == gate.aggregate.acceptedPairs)
          && (forall k :: k in w.pairs ==> gate.aggregate.acceptedPairs <= |w.pairs[k]|))
    && ((forall k :: k in w.pairs ==> |w.pairs[k]| >= w.minimumPairs) ==>
          w.Measured() && gate.aggregate == w.Aggregate(numerics))
    && IsWorst(Outcomes(gate.shapes) + [gate.aggregate.outcome], gate.outcome)
  }

  /** The shape at a place raises, and no earlier one does. */
  ghost predicate FirstToRaise<K(!new)>(numerics: Numerics, w: Workload<K>, i: nat, error: PerformanceError)
    requires w.Ordered() && w.SameShapes()
  {
    && i < |w.order| && w.Shape(numerics, i) == Err(error)
    && forall j :: 0 <= j < i ==> w.Shape(numerics, j).Ok?
  }

  /** The shape gates in order; the first error stops the run. */
  method ShapeGates<K(==,!new)>(numerics: Numerics, w: Workload<K>)
    returns (result: Result<seq<RatioEstimate>, PerformanceError>)
    requires w.Ordered() && w.SameShapes()
    ensures result.Ok? ==>
              |result.value| == |w.order|
              && forall i :: 0 <= i < |w.order| ==> w.Shape(numerics, i) == Ok(result.value[i])
    ensures result.Err? ==> exists i: nat :: FirstToRaise(numerics, w, i, result.error)
  {
    hide PairedRatioGate;
    var shapes: seq<RatioEstimate> := [];
    for index := 0 to |w.order|
      invariant |shapes| == index && forall i :: 0 <= i < index ==> w.Shape(numerics, i) == Ok(shapes[i])
    {
      var shape := w.Shape(numerics, index);
      if shape.Err? {
        assert FirstToRaise(numerics, w, index, shape.error);
        return Err(shape.error);
      }
      shapes := shapes + [shape.value];
    }
    return Ok(shapes);
  }

  /** Add one shape's weighted resampled means to the running sums, in place. */
  method AddScaled(sums: array<real>, weight: real, means: seq<real>)
    requires sums.Length == |means|
    modifies sums
    ensures forall r :: 0 <= r < sums.Length ==> sums[r] == old(sums[r]) + Times(weight, means[r])
  {
    for r := 0 to sums.Length
      invariant forall i :: 0 <= i < r ==> sums[i] == old(sums[i]) + Times(weight, means[i])
      invariant forall i :: r <= i < sums.Length ==> sums[i] == old(sums[i])
    {
      sums[r] := sums[r] + Times(weight, means[r]);
    }
  }

  lemma AggregateAllowance<K(!new)>(numerics: Numerics, w: Workload<K>)
    requires w.Ordered() && w.SameShapes() && w.Measured()
    ensures w.Aggregate(numerics).allowance == w.aggregateAllowance
  {
  }

  lemma SumsAreMeans<K(!new)>(numerics: Numerics, w: Workload<K>, sums: seq<real>)
    requires w.Ordered() && w.SameShapes() && w.Measured() && |sums| == w.replicates
    requires forall r :: 0 <= r < w.replicates ==> sums[r] == w.WeightedMean(numerics, |w.order|, r)
    ensures sums == w.WeightedMeans(numerics, |w.order|)
  {
  }

  lemma NothingWeighted<K(!new)>(numerics: Numerics, w: Workload<K>)
    requires w.Ordered() && w.SameShapes() && w.Measured()
    ensures w.Point(numerics, 0) == 0.0 && forall r :: 0 <= r < w.replicates ==> w.WeightedMean(numerics, 0, r) == 0.0
  {
  }

  /** One more shape adds its weighted resampled means. */
  lemma WeightedMeanAdds<K(!new)>(numerics: Numerics, w: Workload<K>, i: nat, logs: seq<real>)
    requires w.Ordered() && w.SameShapes() && w.Measured() && i < |w.order| && AllPositive(w.pairs[w.order[i]])
    requires logs == LogRatios(numerics, w.pairs[w.order[i]])
    ensures 0 < |logs|
    ensures forall r :: 0 <= r < w.replicates ==>
              w.WeightedMean(numerics, i + 1, r)
              == w.WeightedMean(numerics, i, r)
                 + Times(w.weights[w.order[i]], ResampledMeans(numerics, logs, w.seed, w.Earlier(i), w.replicates)[r])
    ensures w.Point(numerics, i + 1) == w.Point(numerics, i) + Times(w.weights[w.order[i]], Mean(logs))
  {
    hide Mean, LogRatios, ResampledMeans, Times;
  }

  /** The aggregate over measured shapes. */
  method AggregateGate<K(==,!new)>(numerics: Numerics, w: Workload<K>) returns (aggregate: RatioEstimate)
    requires w.Ordered() && w.SameShapes() && w.Measured()
    ensures aggregate == w.Aggregate(numerics)
  {
    hide Percentile, Mean, LogRatios, ResampledMeans, Exponentials, Estimate, Times, Sum, Workload.WeightedMean,
         Workload.Point, Workload.WeightedMeans, Workload.Logs, Workload.ShapeMeans;
    NothingWeighted(numerics, w);
    var sums := new real[w.replicates](_ => 0.0);
    var point := 0.0;
    var accepted := 0;
    for i := 0 to |w.order|
      invariant fresh(sums) && sums.Length == w.replicates
      invariant forall r :: 0 <= r < w.replicates ==> sums[r] == w.WeightedMean(numerics, i, r)
      invariant point == w.Point(numerics, i) && accepted == w.TotalPairs(i)
    {
      var shape := w.order[i];
      var logs := LogRatios(numerics, w.pairs[shape]);
      WeightedMeanAdds(numerics, w, i, logs);
      AddScaled(sums, w.weights[shape], ResampledMeans(numerics, logs, w.seed, w.Earlier(i), w.replicates));
      point := point + Times(w.weights[shape], Mean(logs));
      accepted := accepted + |w.pairs[shape]|;
    }
    SumsAreMeans(numerics, w, sums[..]);
    aggregate := Estimate(numerics.exp(point), Exponentials(numerics, sums[..]), w.aggregateAllowance, accepted);
  }

  /** The smallest number of pairs of any shape. */
  method FewestPairs<K(==,!new)>(w: Workload<K>) returns (fewest: nat)
    requires w.Ordered() && w.order != []
    ensures (exists k :: k in w.pairs && |w.pairs[k]| == fewest) && forall k :: k in w.pairs ==> fewest <= |w.pairs[k]|
  {
    fewest := |w.pairs[w.order[0]]|;
    for i := 1 to |w.order|
      invariant exists k :: k in w.pairs && |w.pairs[k]| == fewest
      invariant forall j :: 0 <= j < i ==> fewest <= |w.pairs[w.order[j]]|
    {
      if |w.pairs[w.order[i]]| < fewest { fewest := |w.pairs[w.order[i]]|; }
    }
  }

  /** No shape is short exactly when none of the shape gates is infrastructure-invalid. */
  lemma ShortShapes<K(!new)>(numerics: Numerics, w: Workload<K>, shapes: seq<RatioEstimate>)
    requires w.Ordered() && w.SameShapes() && w.order != [] && |shapes| == |w.order|
    requires forall i :: 0 <= i < |w.order| ==> w.Shape(numerics, i) == Ok(shapes[i])
    ensures (exists i :: 0 <= i < |shapes| && shapes[i].outcome == InfrastructureInvalid)
            <==> exists k :: k in w.pairs && |w.pairs[k]| < w.minimumPairs
    ensures (forall k :: k in w.pairs ==> |w.pairs[k]| >= w.minimumPairs) ==> w.Measured()
  {
    hide Estimate, Exponentials, LogRatios, ResampledMeans, Mean;
    forall i | 0 <= i < |shapes|
      ensures shapes[i].outcome == InfrastructureInvalid <==> |w.pairs[w.order[i]]| < w.minimumPairs
      ensures |w.pairs[w.order[i]]| >= w.minimumPairs ==> AllPositive(w.pairs[w.order[i]])
      ensures w.allowances[w.order[i]] >= 0.0 && w.replicates >= 1 && w.minimumPairs >= 1
    {
      assert w.Shape(numerics, i) == Ok(shapes[i]);
      GateOk(numerics, w.pairs[w.order[i]], w.allowances[w.order[i]], w.seed + i + 1, w.replicates, w.minimumPairs);
    }
    forall k | k in w.pairs
      ensures |w.pairs[k]| >= w.minimumPairs ==> AllPositive(w.pairs[k])
      ensures w.allowances[k] >= 0.0 && w.replicates >= 1 && w.minimumPairs >= 1
      ensures |w.pairs[k]| < w.minimumPairs ==>
                exists i :: 0 <= i < |shapes| && shapes[i].outcome == InfrastructureInvalid
    {
      var i :| 0 <= i < |w.order| && w.order[i] == k;
      assert shapes[i].outcome == InfrastructureInvalid <==> |w.pairs[k]| < w.minimumPairs;
    }
    assert w.order[0] in w.pairs;
  }

  /** What a shape's gate returning at all says, and when its outcome is infrastructure. */
  lemma GateOk(numerics: Numerics, pairs: seq<AcceptedPair>, allowance: real, seed: int, replicates: int,
               minimumPairs: int)
    ensures var gate := PairedRatioGate(numerics, pairs, allowance, seed, replicates, minimumPairs);
            && (gate.Ok? ==> allowance >= 0.0 && replicates >= 1 && minimumPairs >= 1)
            && (gate.Ok? && |pairs| >= minimumPairs ==> AllPositive(pairs))
            && (gate.Ok? ==> (gate.value.outcome == InfrastructureInvalid <==> |pairs| < minimumPairs))
            && (gate.Err? ==> gate.error == InvalidPolicy || gate.error == NonpositiveTiming)
  {
    hide Exponentials, LogRatios, ResampledMeans, Mean, Percentile;
  }

  /** A shape raises only for its policy or its timings, so never once every shape is measured. */
  lemma ShapeRaises<K(!new)>(numerics: Numerics, w: Workload<K>, i: nat, error: PerformanceError)
    requires w.Ordered() && w.SameShapes() && FirstToRaise(numerics, w, i, error)
    ensures !w.Measured() && (error == InvalidPolicy || error == NonpositiveTiming)
  {
    hide Exponentials, LogRatios, ResampledMeans, Mean, Percentile, Estimate;
    assert w.Shape(numerics, i) == Err(error);
  }

  lemma NoShapesNoWeight<K(!new)>(w: Workload<K>)
    requires w.Ordered() && w.SameShapes() && w.WeightsAccepted()
    ensures w.order != []
  {
  }

  method WeightedPerformanceGate<K(==,!new)>(numerics: Numerics, w: Workload<K>)
    returns (result: Result<PerformanceGate, PerformanceError>)
    requires w.Ordered()
    ensures result == Err(DifferentShapes) <==> !w.SameShapes()
    ensures w.SameShapes() ==> (result == Err(InvalidWeights) <==> !w.WeightsAccepted())
    ensures w.SameShapes() && w.WeightsAccepted() && result.Err? ==>
              exists i: nat :: FirstToRaise(numerics, w, i, result.error)
    ensures w.SameShapes() && w.WeightsAccepted() && w.Measured() ==> result.Ok?
    ensures result.Ok? ==> IsGate(numerics, w, result.value)
  {
    hide PairedRatioGate, IsWorst, Estimate, Exponentials, LogRatios, ResampledMeans, Percentile, Mean, Outcomes;
    if !w.SameShapes() {
      return Err(DifferentShapes);
    }
    if !w.WeightsAccepted() {
      return Err(InvalidWeights);
    }
    NoShapesNoWeight(w);
    var gates := ShapeGates(numerics, w);
    if gates.Err? {
      ghost var i: nat :| FirstToRaise(numerics, w, i, gates.error);
      ShapeRaises(numerics, w, i, gates.error);
      return Err(gates.error);
    }
    var shapes := gates.value;
    ShortShapes(numerics, w, shapes);
    var aggregate: RatioEstimate;
    if exists i :: 0 <= i < |shapes| && shapes[i].outcome == InfrastructureInvalid {
      var fewest := FewestPairs(w);
      aggregate := RatioEstimate(None, fewest, w.aggregateAllowance, InfrastructureInvalid);
    } else {
      aggregate := AggregateGate(numerics, w);
      AggregateAllowance(numerics, w);
    }
    var overall := Overall(Outcomes(shapes) + [aggregate.outcome]);
    result := Ok(PerformanceGate(shapes, aggregate, overall));
  }
}
