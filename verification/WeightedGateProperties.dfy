/** What the weighted gate promises whatever the generator draws: soundness, completeness and monotonicity. */
module WeightedGateProperties {
  import opened Results
  import opened OrderStatistics
  import opened Performance
  import opened WeightedGate

  ghost predicate PositiveWeights<K(!new)>(w: Workload<K>)
    requires w.Ordered() && w.SameShapes()
  {
    forall k :: k in w.weights ==> w.weights[k] > 0.0
  }

  /** The parts of a gate: one estimate for each shape, and the worst outcome of all. */
  lemma GateParts<K(!new)>(numerics: Numerics, w: Workload<K>, gate: PerformanceGate)
    requires w.Ordered() && w.SameShapes() && IsGate(numerics, w, gate)
    ensures |gate.shapes| == |w.order|
    ensures IsWorst(Judged(gate), gate.outcome)
  {
    hide PairedRatioGate, IsWorst, Outcomes, Estimate;
  }

  lemma AggregatePart<K(!new)>(numerics: Numerics, w: Workload<K>, gate: PerformanceGate)
    requires w.Ordered() && w.SameShapes() && w.Measured() && IsGate(numerics, w, gate)
    ensures gate.aggregate == w.Aggregate(numerics)
  {
    hide PairedRatioGate, IsWorst, Outcomes, Estimate;
  }

  lemma ShapeAt<K(!new)>(numerics: Numerics, w: Workload<K>, gate: PerformanceGate, i: nat)
    requires w.Ordered() && w.SameShapes() && IsGate(numerics, w, gate) && i < |w.order|
    ensures i < |gate.shapes|
    ensures Ok(gate.shapes[i]) == PairedRatioGate(numerics, w.pairs[w.order[i]], w.allowances[w.order[i]],
                                                  w.seed + i + 1, w.replicates, w.minimumPairs)
  {
    hide PairedRatioGate, IsWorst, Outcomes, Estimate;
    assert w.Shape(numerics, i) == Ok(gate.shapes[i]);
  }

  /** The outcomes a gate is judged by, the aggregate's last. */
  function Judged(gate: PerformanceGate): (outcomes: seq<GateOutcome>)
    ensures |outcomes| == |gate.shapes| + 1 && outcomes[|gate.shapes|] == gate.aggregate.outcome
    ensures forall i :: 0 <= i < |gate.shapes| ==> outcomes[i] == gate.shapes[i].outcome
  {
    Outcomes(gate.shapes) + [gate.aggregate.outcome]
  }

  // ---------------------------------------------------------------- soundness

  /** Every ratio is within its shape's allowance and within the aggregate allowance. */
  ghost predicate AllWithin<K(!new)>(w: Workload<K>)
    requires w.Ordered() && w.SameShapes()
  {
    forall k :: k in w.pairs ==>
      RatiosWithin(w.pairs[k], 1.0 + w.allowances[k]) && RatiosWithin(w.pairs[k], 1.0 + w.aggregateAllowance)
  }

  lemma {:induction false} WeightedMeanWithin<K(!new)>(numerics: Numerics, w: Workload<K>, count: nat, row: nat,
                                                       bound: real)
    requires w.Ordered() && w.SameShapes() && w.Measured() && PositiveWeights(w)
    requires count <= |w.order| && row < w.replicates
    requires forall i, j :: 0 <= i < |w.order| && 0 <= j < |w.Logs(numerics, i)| ==> w.Logs(numerics, i)[j] <= bound
    ensures w.WeightedMean(numerics, count, row) <= Times(w.WeightSum(count), bound)
  {
    hide Times, LogRatios, ResampledMeans;
    if count == 0 {
      TimesZeroOne(bound);
    } else {
      var i := count - 1;
      WeightedMeanWithin(numerics, w, i, row, bound);
      MeansWithin(numerics, w.Logs(numerics, i), w.seed, w.Earlier(i), w.replicates, bound);
      var weight, mean := w.weights[w.order[i]], w.ShapeMeans(numerics, i)[row];
      TimesAscends(mean, bound, weight);
      TimesCommutes(mean, weight);
      TimesCommutes(bound, weight);
      TimesAdds(w.WeightSum(i), weight, bound);
    }
  }

  lemma TimesAdds(a: real, b: real, x: real)
    ensures Times(a + b, x) == Times(a, x) + Times(b, x)
  {
  }

  lemma AggregatePasses<K(!new)>(numerics: Numerics, w: Workload<K>)
    requires Lawful(numerics) && w.Ordered() && w.SameShapes() && w.Measured() && PositiveWeights(w)
    requires w.WeightSum(|w.order|) == 1.0 && AllWithin(w)
    ensures w.Aggregate(numerics).outcome == Passed
  {
    hide Times, LogRatios, Estimate;
    var boundary := 1.0 + w.aggregateAllowance;
    BoundaryPositive(w);
    var bound := numerics.log(boundary);
    forall i, j | 0 <= i < |w.order| && 0 <= j < |w.Logs(numerics, i)|
      ensures w.Logs(numerics, i)[j] <= bound
    {
      LogsWithin(numerics, w.pairs[w.order[i]], boundary);
    }
    var means := w.WeightedMeans(numerics, |w.order|);
    forall row | 0 <= row < |means|
      ensures numerics.exp(means[row]) <= boundary
    {
      WeightedMeanWithin(numerics, w, |w.order|, row, bound);
      TimesZeroOne(bound);
      ExpAscends(numerics, means[row], bound);
    }
    EstimatePasses(numerics.exp(w.Point(numerics, |w.order|)), Exponentials(numerics, means), w.aggregateAllowance,
                   w.TotalPairs(|w.order|));
  }

  lemma BoundaryPositive<K(!new)>(w: Workload<K>)
    requires w.Ordered() && w.SameShapes() && w.Measured() && w.WeightSum(|w.order|) == 1.0 && AllWithin(w)
    ensures 0.0 < 1.0 + w.aggregateAllowance
  {
    var pairs := w.pairs[w.order[0]];
    RatioPositive(pairs[0]);
  }

  /** All ratios within both allowances: every shape, the aggregate and the overall outcome pass. */
  lemma GateSound<K(!new)>(numerics: Numerics, w: Workload<K>, gate: PerformanceGate)
    requires Lawful(numerics) && w.Ordered() && w.SameShapes() && w.Measured() && PositiveWeights(w)
    requires w.WeightSum(|w.order|) == 1.0 && AllWithin(w) && IsGate(numerics, w, gate)
    ensures forall i :: 0 <= i < |gate.shapes| ==> gate.shapes[i].outcome == Passed
    ensures gate.aggregate.outcome == Passed && gate.outcome == Passed
  {
    hide PairedRatioGate, RatiosWithin, AllWithin, IsGate, Lawful, Workload.Ordered, Workload.SameShapes,
         Workload.Measured, Workload.WeightSum, PositiveWeights, IsWorst, Workload.Aggregate;
    GateParts(numerics, w, gate);
    AggregatePart(numerics, w, gate);
    forall i | 0 <= i < |gate.shapes|
      ensures gate.shapes[i].outcome == Passed
    {
      ShapePasses(numerics, w, gate, i);
    }
    AggregatePasses(numerics, w);
    AllPassed(gate);
  }

  lemma ShapePasses<K(!new)>(numerics: Numerics, w: Workload<K>, gate: PerformanceGate, i: nat)
    requires Lawful(numerics) && w.Ordered() && w.SameShapes() && w.Measured() && AllWithin(w)
    requires IsGate(numerics, w, gate) && i < |gate.shapes|
    ensures gate.shapes[i].outcome == Passed
  {
    hide PairedRatioGate, RatiosWithin, IsWorst, Lawful, IsGate, Workload.Aggregate;
    GateParts(numerics, w, gate);
    ShapeAt(numerics, w, gate, i);
    var k := w.order[i];
    PairedSound(numerics, w.pairs[k], w.allowances[k], w.seed + i + 1, w.replicates, w.minimumPairs);
  }

  lemma AllPassed(gate: PerformanceGate)
    requires forall i :: 0 <= i < |gate.shapes| ==> gate.shapes[i].outcome == Passed
    requires gate.aggregate.outcome == Passed && IsWorst(Judged(gate), gate.outcome)
    ensures gate.outcome == Passed
  {
  }

  // ---------------------------------------------------------------- completeness

  lemma ShapesDecide<K(!new)>(numerics: Numerics, w: Workload<K>, gate: PerformanceGate)
    requires w.Ordered() && w.SameShapes() && w.Measured() && IsGate(numerics, w, gate)
    ensures forall j :: 0 <= j < |gate.shapes| ==> gate.shapes[j].outcome != InfrastructureInvalid
    ensures gate.aggregate.outcome != InfrastructureInvalid
  {
    hide PairedRatioGate, IsWorst;
    forall j | 0 <= j < |gate.shapes|
      ensures gate.shapes[j].outcome != InfrastructureInvalid
    {
      assert w.Shape(numerics, j) == Ok(gate.shapes[j]);
      var l := w.order[j];
      GateOk(numerics, w.pairs[l], w.allowances[l], w.seed + j + 1, w.replicates, w.minimumPairs);
    }
    AggregateDecides(numerics, w);
  }

  /** A shape all of whose ratios exceed its boundary is a regression, and so is the whole run. */
  lemma GateComplete<K(!new)>(numerics: Numerics, w: Workload<K>, gate: PerformanceGate, i: nat)
    requires Lawful(numerics) && w.Ordered() && w.SameShapes() && w.Measured() && IsGate(numerics, w, gate)
    requires i < |w.order| && RatiosBeyond(w.pairs[w.order[i]], 1.0 + w.allowances[w.order[i]])
    ensures gate.shapes[i].outcome == Regression && gate.outcome == Regression
  {
    hide PairedRatioGate, RatiosBeyond, IsWorst, Lawful, IsGate, Judged;
    ShapesDecide(numerics, w, gate);
    GateParts(numerics, w, gate);
    ShapeAt(numerics, w, gate, i);
    var k := w.order[i];
    PairedComplete(numerics, w.pairs[k], w.allowances[k], w.seed + i + 1, w.replicates, w.minimumPairs);
    WorstIsRegression(gate, i);
  }

  lemma AggregateDecides<K(!new)>(numerics: Numerics, w: Workload<K>)
    requires w.Ordered() && w.SameShapes() && w.Measured()
    ensures w.Aggregate(numerics).outcome != InfrastructureInvalid
  {
  }

  lemma WorstIsRegression(gate: PerformanceGate, i: nat)
    requires i < |gate.shapes| && gate.shapes[i].outcome == Regression
    requires forall j :: 0 <= j < |gate.shapes| ==> gate.shapes[j].outcome != InfrastructureInvalid
    requires gate.aggregate.outcome != InfrastructureInvalid
    requires IsWorst(Judged(gate), gate.outcome)
    ensures gate.outcome == Regression
  {
    hide Judged;
    var outcomes := Judged(gate);
    assert outcomes[i] in outcomes;
    if gate.outcome == InfrastructureInvalid {
      var j :| 0 <= j < |outcomes| && outcomes[j] == InfrastructureInvalid;
    }
  }

  /** A shape short of the minimum makes the aggregate and the whole run infrastructure-invalid. */
  lemma ShortShapeInvalidates<K(!new)>(numerics: Numerics, w: Workload<K>, gate: PerformanceGate, k: K)
    requires w.Ordered() && w.SameShapes() && IsGate(numerics, w, gate) && k in w.pairs && |w.pairs[k]| < w.minimumPairs
    ensures gate.aggregate.outcome == InfrastructureInvalid && gate.outcome == InfrastructureInvalid
  {
    hide PairedRatioGate, Outcomes, Estimate, LogRatios, ResampledMeans, Exponentials, Judged;
    GateParts(numerics, w, gate);
    assert Judged(gate)[|gate.shapes|] in Judged(gate);
  }

  // ---------------------------------------------------------------- monotonicity

  /** The same workload except that no ratio is higher. */
  ghost predicate NoRatioHigher<K(!new)>(a: Workload<K>, b: Workload<K>) {
    && b == a.(pairs := b.pairs) && a.pairs.Keys == b.pairs.Keys
    && forall k :: k in a.pairs ==> RatiosLower(a.pairs[k], b.pairs[k])
  }

  lemma {:induction false} WeightedMeanDominated<K(!new)>(
    numerics: Numerics, a: Workload<K>, b: Workload<K>, count: nat, row: nat)
    requires Lawful(numerics) && NoRatioHigher(a, b) && a.Ordered() && b.Ordered() && a.SameShapes() && b.SameShapes()
    requires a.Measured() && b.Measured() && PositiveWeights(a) && count <= |a.order| && row < a.replicates
    ensures a.WeightedMean(numerics, count, row) <= b.WeightedMean(numerics, count, row)
  {
    hide Times, LogRatios, ResampledMeans, RatiosLower, Lawful;
    if count > 0 {
      var i := count - 1;
      WeightedMeanDominated(numerics, a, b, i, row);
      var k := a.order[i];
      LogRatiosDominated(numerics, a.pairs[k], b.pairs[k]);
      SameSizes(a, b, i);
      ResampledMeansDominated(numerics, a.Logs(numerics, i), b.Logs(numerics, i), a.seed, a.Earlier(i), a.replicates);
      var x, y := a.ShapeMeans(numerics, i)[row], b.ShapeMeans(numerics, i)[row];
      TimesAscends(x, y, a.weights[k]);
      TimesCommutes(x, a.weights[k]);
      TimesCommutes(y, a.weights[k]);
    }
  }

  lemma SameSizes<K(!new)>(a: Workload<K>, b: Workload<K>, i: nat)
    requires NoRatioHigher(a, b) && a.Ordered() && b.Ordered() && i <= |a.order|
    ensures a.Earlier(i) == b.Earlier(i)
  {
  }

  lemma AggregateMonotone<K(!new)>(numerics: Numerics, a: Workload<K>, b: Workload<K>)
    requires Lawful(numerics) && NoRatioHigher(a, b) && a.Ordered() && b.Ordered() && a.SameShapes() && b.SameShapes()
    requires a.Measured() && b.Measured() && PositiveWeights(a)
    ensures Rank(a.Aggregate(numerics).outcome) <= Rank(b.Aggregate(numerics).outcome)
  {
    hide Estimate, Lawful, RatiosLower;
    var x, y := a.WeightedMeans(numerics, |a.order|), b.WeightedMeans(numerics, |a.order|);
    forall row | 0 <= row < |x|
      ensures x[row] <= y[row]
    {
      WeightedMeanDominated(numerics, a, b, |a.order|, row);
    }
    ExponentialsDominated(numerics, x, y);
    EstimateMonotone(numerics.exp(a.Point(numerics, |a.order|)), Exponentials(numerics, x),
                     numerics.exp(b.Point(numerics, |b.order|)), Exponentials(numerics, y),
                     a.aggregateAllowance, a.TotalPairs(|a.order|), b.TotalPairs(|b.order|));
  }

  /** Outcomes that are each no worse have a worst that is no worse. */
  lemma WorstMonotone(a: seq<GateOutcome>, x: GateOutcome, b: seq<GateOutcome>, y: GateOutcome)
    requires IsWorst(a, x) && IsWorst(b, y) && |a| == |b|
    requires forall i :: 0 <= i < |a| ==> Rank(a[i]) <= Rank(b[i])
    ensures Rank(x) <= Rank(y)
  {
    if x != Passed {
      var i :| 0 <= i < |a| && a[i] == x;
      assert b[i] in b;
    }
  }

  /** Lowering any ratios of a workload never worsens the overall outcome, whatever the generator draws. */
  lemma OverallMonotone<K(!new)>(
    numerics: Numerics, a: Workload<K>, lower: PerformanceGate, b: Workload<K>, higher: PerformanceGate)
    requires Lawful(numerics) && NoRatioHigher(a, b) && a.Ordered() && b.Ordered() && a.SameShapes() && b.SameShapes()
    requires PositiveWeights(a) && IsGate(numerics, a, lower) && IsGate(numerics, b, higher)
    ensures Rank(lower.outcome) <= Rank(higher.outcome)
  {
    hide PairedRatioGate, RatiosLower, Lawful, IsWorst, IsGate, Judged, Workload.Ordered, Workload.SameShapes,
         PositiveWeights;
    GateParts(numerics, a, lower);
    GateParts(numerics, b, higher);
    var x, y := Judged(lower), Judged(higher);
    forall i | 0 <= i < |lower.shapes|
      ensures Rank(x[i]) <= Rank(y[i])
    {
      ShapeNoWorse(numerics, a, lower, b, higher, i);
    }
    AggregateNoWorse(numerics, a, lower, b, higher);
    WorstMonotone(x, lower.outcome, y, higher.outcome);
  }

  lemma ShapeNoWorse<K(!new)>(
    numerics: Numerics, a: Workload<K>, lower: PerformanceGate, b: Workload<K>, higher: PerformanceGate, i: nat)
    requires Lawful(numerics) && NoRatioHigher(a, b) && a.Ordered() && b.Ordered() && a.SameShapes() && b.SameShapes()
    requires IsGate(numerics, a, lower) && IsGate(numerics, b, higher)
    requires i < |lower.shapes| && i < |higher.shapes|
    ensures Rank(lower.shapes[i].outcome) <= Rank(higher.shapes[i].outcome)
  {
    hide PairedRatioGate, RatiosLower, Lawful, IsWorst, IsGate;
    GateParts(numerics, a, lower);
    var k := a.order[i];
    ShapeAt(numerics, a, lower, i);
    ShapeAt(numerics, b, higher, i);
    PairedVerdictMonotone(numerics, a.pairs[k], b.pairs[k], a.allowances[k], a.seed + i + 1, a.replicates,
                          a.minimumPairs);
  }

  lemma AggregateNoWorse<K(!new)>(
    numerics: Numerics, a: Workload<K>, lower: PerformanceGate, b: Workload<K>, higher: PerformanceGate)
    requires Lawful(numerics) && NoRatioHigher(a, b) && a.Ordered() && b.Ordered() && a.SameShapes() && b.SameShapes()
    requires PositiveWeights(a) && IsGate(numerics, a, lower) && IsGate(numerics, b, higher)
    ensures Rank(lower.aggregate.outcome) <= Rank(higher.aggregate.outcome)
  {
    hide PairedRatioGate, RatiosLower, Lawful, IsWorst, Outcomes;
    SameLengths(a, b);
    if forall k :: k in a.pairs ==> |a.pairs[k]| >= a.minimumPairs {
      AggregateMonotone(numerics, a, b);
    }
  }

  lemma SameLengths<K(!new)>(a: Workload<K>, b: Workload<K>)
    requires NoRatioHigher(a, b)
    ensures forall k :: k in a.pairs ==> k in b.pairs && |a.pairs[k]| == |b.pairs[k]|
  {
  }
}
