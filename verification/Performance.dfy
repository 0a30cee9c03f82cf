/** The paired-bootstrap gates on benchmark ratios: one shape at a time, and weighted over all shapes. */
module Performance {
  import opened Results
  import opened OrderStatistics

  datatype GateOutcome = Passed | Inconclusive | Regression | InfrastructureInvalid

  datatype AcceptedPair = AcceptedPair(baseline: real, candidate: real) {
    predicate Positive() {
      baseline > 0.0 && candidate > 0.0
    }

    function Ratio(): real
      requires Positive()
    {
      candidate / baseline
    }
  }

  datatype Bounds = Bounds(point: real, twoSidedLower: real, twoSidedUpper: real, oneSidedLower: real,
                           oneSidedUpper: real)

  /** `bounds` is `None` where every number is NaN. */
  datatype RatioEstimate = RatioEstimate(bounds: Option<Bounds>, acceptedPairs: nat, allowance: real,
                                         outcome: GateOutcome)

  /** One estimate for each shape, in the order of the sorted shape identifiers. */
  datatype PerformanceGate = PerformanceGate(shapes: seq<RatioEstimate>, aggregate: RatioEstimate, outcome: GateOutcome)

  datatype PerformanceError = InvalidPolicy | NonpositiveTiming | DifferentShapes | InvalidWeights

  /** Exponential, logarithm and the seeded generator. A draw may depend on the seed, the sizes drawn before it
      from the same generator, the number of replicates, the size drawn, and its row and column. */
  datatype Numerics = Numerics(exp: real -> real, log: real -> real, draw: (int, seq<nat>, nat, nat, nat, nat) -> nat)

  /** What is used of the exponential and the logarithm. */
  ghost predicate Lawful(numerics: Numerics) {
    && (forall x, y :: x < y ==> numerics.exp(x) < numerics.exp(y))
    && (forall x :: 0.0 < x ==> numerics.exp(numerics.log(x)) == x)
  }

  function Rank(outcome: GateOutcome): nat {
    match outcome
    case Passed => 0
    case Inconclusive => 1
    case Regression => 2
    case InfrastructureInvalid => 3
  }

  // ---------------------------------------------------------------- one shape

  predicate AllPositive(pairs: seq<AcceptedPair>) {
    forall i :: 0 <= i < |pairs| ==> pairs[i].Positive()
  }

  function LogRatios(numerics: Numerics, pairs: seq<AcceptedPair>): (logs: seq<real>)
    requires AllPositive(pairs)
    ensures |logs| == |pairs|
  {
    seq(|pairs|, i requires 0 <= i < |pairs| => numerics.log(pairs[i].Ratio()))
  }

  /** One resample with replacement: the generator draws an index for each column. */
  function Resample(numerics: Numerics, logs: seq<real>, seed: int, earlier: seq<nat>, replicates: nat,
                    row: nat): (sample: seq<real>)
    requires 0 < |logs|
    ensures |sample| == |logs|
  {
    seq(|logs|, column requires 0 <= column < |logs| =>
      logs[numerics.draw(seed, earlier, replicates, |logs|, row, column) % |logs|])
  }

  function ResampledMeans(numerics: Numerics, logs: seq<real>, seed: int, earlier: seq<nat>,
                          replicates: nat): (means: seq<real>)
    requires 0 < |logs|
    ensures |means| == replicates
  {
    seq(replicates, row requires 0 <= row < replicates =>
      Mean(Resample(numerics, logs, seed, earlier, replicates, row)))
  }

  function Exponentials(numerics: Numerics, values: seq<real>): (r: seq<real>)
    ensures |r| == |values|
  {
    seq(|values|, i requires 0 <= i < |values| => numerics.exp(values[i]))
  }

  function Decide(lower: real, upper: real, boundary: real): GateOutcome {
    if upper <= boundary then Passed else if lower > boundary then Regression else Inconclusive
  }

  function Estimate(point: real, bootstrap: seq<real>, allowance: real, acceptedPairs: nat): RatioEstimate
    requires 0 < |bootstrap|
  {
    var lowerOne, upperOne := Percentile(bootstrap, 5.0), Percentile(bootstrap, 95.0);
    RatioEstimate(
      Some(Bounds(point, Percentile(bootstrap, 2.5), Percentile(bootstrap, 97.5), lowerOne, upperOne)),
      acceptedPairs, allowance, Decide(lowerOne, upperOne, 1.0 + allowance))
  }

  function PairedRatioGate(numerics: Numerics, pairs: seq<AcceptedPair>, allowance: real, seed: int, replicates: int,
                           minimumPairs: int): Result<RatioEstimate, PerformanceError> {
    if allowance < 0.0 || replicates < 1 || minimumPairs < 1 then Err(InvalidPolicy)
    else if |pairs| < minimumPairs then Ok(RatioEstimate(None, |pairs|, allowance, InfrastructureInvalid))
    else if !AllPositive(pairs) then Err(NonpositiveTiming)
    else
      var logs := LogRatios(numerics, pairs);
      var bootstrap := Exponentials(numerics, ResampledMeans(numerics, logs, seed, [], replicates));
      Ok(Estimate(numerics.exp(Mean(logs)), bootstrap, allowance, |pairs|))
  }

  /** Every ratio of `a` is at most the ratio of `b` at the same place. */
  ghost predicate RatiosLower(a: seq<AcceptedPair>, b: seq<AcceptedPair>) {
    && |a| == |b| && AllPositive(a) && AllPositive(b)
    && forall i :: 0 <= i < |a| ==> a[i].Ratio() <= b[i].Ratio()
  }

  ghost predicate RatiosWithin(pairs: seq<AcceptedPair>, boundary: real) {
    AllPositive(pairs) && forall i :: 0 <= i < |pairs| ==> pairs[i].Ratio() <= boundary
  }

  ghost predicate RatiosBeyond(pairs: seq<AcceptedPair>, boundary: real) {
    AllPositive(pairs) && forall i :: 0 <= i < |pairs| ==> boundary < pairs[i].Ratio()
  }

  lemma ExpAscends(numerics: Numerics, x: real, y: real)
    requires Lawful(numerics) && x <= y
    ensures numerics.exp(x) <= numerics.exp(y)
  {
  }

  /** The logarithm orders positive numbers as they are ordered. */
  lemma LogAscends(numerics: Numerics, x: real, y: real)
    requires Lawful(numerics) && 0.0 < x && 0.0 < y
    ensures x <= y <==> numerics.log(x) <= numerics.log(y)
  {
    if numerics.log(x) < numerics.log(y) {
      assert numerics.exp(numerics.log(x)) < numerics.exp(numerics.log(y));
    } else if numerics.log(y) < numerics.log(x) {
      assert numerics.exp(numerics.log(y)) < numerics.exp(numerics.log(x));
    }
  }

  lemma RatioPositive(pair: AcceptedPair)
    requires pair.Positive()
    ensures 0.0 < pair.Ratio()
  {
  }

  lemma LogRatiosDominated(numerics: Numerics, a: seq<AcceptedPair>, b: seq<AcceptedPair>)
    requires Lawful(numerics) && RatiosLower(a, b)
    ensures Dominated(LogRatios(numerics, a), LogRatios(numerics, b))
  {
    forall i | 0 <= i < |a|
      ensures LogRatios(numerics, a)[i] <= LogRatios(numerics, b)[i]
    {
      RatioPositive(a[i]);
      RatioPositive(b[i]);
      LogAscends(numerics, a[i].Ratio(), b[i].Ratio());
    }
  }

  lemma ResampledMeansDominated(numerics: Numerics, a: seq<real>, b: seq<real>, seed: int, earlier: seq<nat>,
                                replicates: nat)
    requires Dominated(a, b) && 0 < |a|
    ensures Dominated(ResampledMeans(numerics, a, seed, earlier, replicates),
                      ResampledMeans(numerics, b, seed, earlier, replicates))
  {
    hide Mean;
    forall row | 0 <= row < replicates
      ensures ResampledMeans(numerics, a, seed, earlier, replicates)[row]
              <= ResampledMeans(numerics, b, seed, earlier, replicates)[row]
    {
      MeanDominated(Resample(numerics, a, seed, earlier, replicates, row),
                    Resample(numerics, b, seed, earlier, replicates, row));
    }
  }

  lemma ExponentialsDominated(numerics: Numerics, a: seq<real>, b: seq<real>)
    requires Lawful(numerics) && Dominated(a, b)
    ensures Dominated(Exponentials(numerics, a), Exponentials(numerics, b))
  {
    forall i | 0 <= i < |a|
      ensures Exponentials(numerics, a)[i] <= Exponentials(numerics, b)[i]
    {
      ExpAscends(numerics, a[i], b[i]);
    }
  }

  /** Lower replicates never give a worse verdict. */
  lemma EstimateMonotone(point: real, a: seq<real>, point': real, b: seq<real>, allowance: real, n: nat, m: nat)
    requires 0 < |a| && Dominated(a, b)
    ensures Rank(Estimate(point, a, allowance, n).outcome) <= Rank(Estimate(point', b, allowance, m).outcome)
  {
    hide Percentile;
    PercentileDominated(a, b, 5.0);
    PercentileDominated(a, b, 95.0);
    PercentileAscends(b, 5.0, 95.0);
  }

  /** With the same seed and replicates, lowering any ratios never worsens the verdict of a shape. */
  lemma PairedVerdictMonotone(numerics: Numerics, a: seq<AcceptedPair>, b: seq<AcceptedPair>, allowance: real,
                              seed: int, replicates: int, minimumPairs: int)
    requires Lawful(numerics) && RatiosLower(a, b)
    ensures var lower := PairedRatioGate(numerics, a, allowance, seed, replicates, minimumPairs);
            var higher := PairedRatioGate(numerics, b, allowance, seed, replicates, minimumPairs);
            && lower.Ok? == higher.Ok?
            && (lower.Ok? ==> Rank(lower.value.outcome) <= Rank(higher.value.outcome))
  {
    hide Estimate, Lawful, ResampledMeans, Exponentials, LogRatios, Mean, Dominated;
    if allowance < 0.0 || replicates < 1 || minimumPairs < 1 || |a| < minimumPairs {
    } else {
      var x, y := LogRatios(numerics, a), LogRatios(numerics, b);
      LogRatiosDominated(numerics, a, b);
      ResampledMeansDominated(numerics, x, y, seed, [], replicates);
      var s, t := ResampledMeans(numerics, x, seed, [], replicates), ResampledMeans(numerics, y, seed, [], replicates);
      ExponentialsDominated(numerics, s, t);
      EstimateMonotone(numerics.exp(Mean(x)), Exponentials(numerics, s), numerics.exp(Mean(y)),
                       Exponentials(numerics, t), allowance, |a|, |b|);
    }
  }

  /** An estimate from replicates: the intervals are nested; the verdict follows the one-sided bounds, so it is never
      passed and regression at once; and each bound is a percentile by rank, with fewer than the given share of the
      replicates, up to one whole replicate, beyond it. */
  lemma EstimateDecides(point: real, bootstrap: seq<real>, allowance: real, n: nat)
    requires 0 < |bootstrap|
    ensures var estimate, others := Estimate(point, bootstrap, allowance, n), (|bootstrap| - 1) as real;
            && estimate.bounds.Some? && estimate.acceptedPairs == n && estimate.allowance == allowance
            && var b := estimate.bounds.value;
               && b.point == point
               && b.twoSidedLower <= b.oneSidedLower <= b.oneSidedUpper <= b.twoSidedUpper
               && (estimate.outcome == Passed <==> b.oneSidedUpper <= 1.0 + allowance)
               && (estimate.outcome == Regression <==> b.oneSidedLower > 1.0 + allowance)
               && estimate.outcome != InfrastructureInvalid
               && CountAbove(bootstrap, b.oneSidedUpper) as real < 0.05 * others + 1.0
               && CountBelow(bootstrap, b.oneSidedLower) as real < 0.05 * others + 1.0
               && CountAbove(bootstrap, b.twoSidedUpper) as real < 0.025 * others + 1.0
               && CountBelow(bootstrap, b.twoSidedLower) as real < 0.025 * others + 1.0
  {
    hide Percentile, CountAbove, CountBelow;
    PercentileAscends(bootstrap, 2.5, 5.0);
    PercentileAscends(bootstrap, 5.0, 95.0);
    PercentileAscends(bootstrap, 95.0, 97.5);
    PercentileRank(bootstrap, 2.5);
    PercentileRank(bootstrap, 5.0);
    PercentileRank(bootstrap, 95.0);
    PercentileRank(bootstrap, 97.5);
  }

  lemma EstimatePasses(point: real, bootstrap: seq<real>, allowance: real, n: nat)
    requires 0 < |bootstrap| && forall i :: 0 <= i < |bootstrap| ==> bootstrap[i] <= 1.0 + allowance
    ensures Estimate(point, bootstrap, allowance, n).outcome == Passed
  {
    hide Percentile;
    PercentileWithin(bootstrap, 95.0);
  }

  lemma EstimateRegresses(point: real, bootstrap: seq<real>, allowance: real, n: nat)
    requires 0 < |bootstrap| && forall i :: 0 <= i < |bootstrap| ==> 1.0 + allowance < bootstrap[i]
    ensures Estimate(point, bootstrap, allowance, n).outcome == Regression
  {
    hide Percentile;
    PercentileWithin(bootstrap, 5.0);
    PercentileWithin(bootstrap, 95.0);
  }

  lemma MeansWithin(numerics: Numerics, logs: seq<real>, seed: int, earlier: seq<nat>, replicates: nat, bound: real)
    requires 0 < |logs| && forall i :: 0 <= i < |logs| ==> logs[i] <= bound
    ensures forall row :: 0 <= row < replicates ==>
              ResampledMeans(numerics, logs, seed, earlier, replicates)[row] <= bound
  {
    hide Mean;
    forall row | 0 <= row < replicates
      ensures ResampledMeans(numerics, logs, seed, earlier, replicates)[row] <= bound
    {
      MeanAtMost(Resample(numerics, logs, seed, earlier, replicates, row), bound);
    }
  }

  lemma MeansBeyond(numerics: Numerics, logs: seq<real>, seed: int, earlier: seq<nat>, replicates: nat, bound: real)
    requires 0 < |logs| && forall i :: 0 <= i < |logs| ==> bound < logs[i]
    ensures forall row :: 0 <= row < replicates ==>
              bound < ResampledMeans(numerics, logs, seed, earlier, replicates)[row]
  {
    hide Mean;
    forall row | 0 <= row < replicates
      ensures bound < ResampledMeans(numerics, logs, seed, earlier, replicates)[row]
    {
      MeanAbove(Resample(numerics, logs, seed, earlier, replicates, row), bound);
    }
  }

  lemma LogsWithin(numerics: Numerics, pairs: seq<AcceptedPair>, boundary: real)
    requires Lawful(numerics) && 0.0 < boundary && RatiosWithin(pairs, boundary)
    ensures forall i :: 0 <= i < |pairs| ==> LogRatios(numerics, pairs)[i] <= numerics.log(boundary)
  {
    forall i | 0 <= i < |pairs|
      ensures LogRatios(numerics, pairs)[i] <= numerics.log(boundary)
    {
      RatioPositive(pairs[i]);
      LogAscends(numerics, pairs[i].Ratio(), boundary);
    }
  }

  lemma LogsBeyond(numerics: Numerics, pairs: seq<AcceptedPair>, boundary: real)
    requires Lawful(numerics) && 0.0 < boundary && RatiosBeyond(pairs, boundary)
    ensures forall i :: 0 <= i < |pairs| ==> numerics.log(boundary) < LogRatios(numerics, pairs)[i]
  {
    forall i | 0 <= i < |pairs|
      ensures numerics.log(boundary) < LogRatios(numerics, pairs)[i]
    {
      RatioPositive(pairs[i]);
      LogAscends(numerics, pairs[i].Ratio(), boundary);
    }
  }

  /** Whatever is drawn, a shape whose ratios all stay within its allowance passes. */
  lemma PairedSound(numerics: Numerics, pairs: seq<AcceptedPair>, allowance: real, seed: int, replicates: int,
                    minimumPairs: int)
    requires Lawful(numerics) && 0.0 <= allowance && 1 <= replicates && 1 <= minimumPairs <= |pairs|
    requires RatiosWithin(pairs, 1.0 + allowance)
    ensures var gate := PairedRatioGate(numerics, pairs, allowance, seed, replicates, minimumPairs);
            gate.Ok? && gate.value.outcome == Passed && gate.value.bounds.Some?
            && gate.value.bounds.value.point <= 1.0 + allowance
  {
    hide Percentile, LogRatios, Mean, ResampledMeans;
    var logs, bound := LogRatios(numerics, pairs), numerics.log(1.0 + allowance);
    LogsWithin(numerics, pairs, 1.0 + allowance);
    MeansWithin(numerics, logs, seed, [], replicates, bound);
    var means := ResampledMeans(numerics, logs, seed, [], replicates);
    forall i | 0 <= i < |means|
      ensures numerics.exp(means[i]) <= 1.0 + allowance
    {
      ExpAscends(numerics, means[i], bound);
    }
    EstimatePasses(numerics.exp(Mean(logs)), Exponentials(numerics, means), allowance, |pairs|);
    MeanAtMost(logs, bound);
    ExpAscends(numerics, Mean(logs), bound);
  }

  /** Whatever is drawn, a shape whose ratios all exceed its allowance is a regression. */
  lemma PairedComplete(numerics: Numerics, pairs: seq<AcceptedPair>, allowance: real, seed: int, replicates: int,
                       minimumPairs: int)
    requires Lawful(numerics) && 0.0 <= allowance && 1 <= replicates && 1 <= minimumPairs <= |pairs|
    requires RatiosBeyond(pairs, 1.0 + allowance)
    ensures var gate := PairedRatioGate(numerics, pairs, allowance, seed, replicates, minimumPairs);
            gate.Ok? && gate.value.outcome == Regression && gate.value.bounds.Some?
            && gate.value.bounds.value.point > 1.0 + allowance
  {
    hide Percentile, LogRatios, Mean, ResampledMeans;
    var logs, bound := LogRatios(numerics, pairs), numerics.log(1.0 + allowance);
    LogsBeyond(numerics, pairs, 1.0 + allowance);
    MeansBeyond(numerics, logs, seed, [], replicates, bound);
    MeanAbove(logs, bound);
    EstimateRegresses(numerics.exp(Mean(logs)),
                      Exponentials(numerics, ResampledMeans(numerics, logs, seed, [], replicates)), allowance, |pairs|);
  }
}
