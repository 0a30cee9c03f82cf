/** The confirmed gate on engine size and device memory. */
module MemoryGate {
  import opened Results
  import opened OrderStatistics
  import opened Performance

  datatype MemoryError = TooFewBuilds | NegativeObservation

  datatype Gate = Gate(baseline: int, candidates: seq<int>, allowance: int, spread: int, outcome: GateOutcome)

  /** Python's `round`: the nearest integer, and the even one of two. */
  function Round(x: real): int {
    var low := x.Floor;
    var twice := 2.0 * (x - low as real);
    if twice < 1.0 then low
    else if twice > 1.0 then low + 1
    else if low % 2 == 0 then low else low + 1
  }

  /** Rounding takes an integer at distance at most one half, and an even one when two are. */
  lemma RoundIsNearest(x: real, n: int)
    ensures n == Round(x) <==>
            && -1.0 <= 2.0 * (n as real - x) <= 1.0
            && (2.0 * (n as real - x) == 1.0 || 2.0 * (n as real - x) == -1.0 ==> n % 2 == 0)
  {
  }

  lemma RoundAscends(x: real, y: real)
    requires x <= y
    ensures Round(x) <= Round(y)
  {
  }

  function Total(values: seq<int>): int {
    if values == [] then 0 else values[0] + Total(values[1..])
  }

  function Largest(values: seq<int>): (r: int)
    requires values != []
    ensures r in values && forall v :: v in values ==> v <= r
  {
    if |values| == 1 then values[0]
    else
      var rest := Largest(values[1..]);
      assert values == [values[0]] + values[1..];
      if values[0] < rest then rest else values[0]
  }

  function Smallest(values: seq<int>): (r: int)
    requires values != []
    ensures r in values && forall v :: v in values ==> r <= v
  {
    if |values| == 1 then values[0]
    else
      var rest := Smallest(values[1..]);
      assert values == [values[0]] + values[1..];
      if rest < values[0] then rest else values[0]
  }

  function RoundedMean(values: seq<int>): int
    requires values != []
  {
    Round(Total(values) as real / |values| as real)
  }

  /** The larger of the fixed allowance and the rounded proportion of the baseline. */
  function Allowance(baseline: int, fixed: int, proportion: real): int {
    var proportional := Round(Times(baseline as real, proportion));
    if fixed < proportional then proportional else fixed
  }

  predicate AllExceed(values: seq<int>, limit: int) {
    forall v :: v in values ==> v > limit
  }

  predicate AnyExceeds(values: seq<int>, limit: int) {
    exists v :: v in values && v > limit
  }

  function ConfirmedMemoryGate(baselines: seq<int>, candidates: seq<int>, fixed: int,
                               proportion: real): Result<Gate, MemoryError> {
    if |baselines| < 3 || |candidates| < 3 then Err(TooFewBuilds)
    else if exists v :: v in baselines + candidates && v < 0 then Err(NegativeObservation)
    else
      var baseline := RoundedMean(baselines);
      var allowance := Allowance(baseline, fixed, proportion);
      var spread := Largest(baselines) - Smallest(baselines);
      var outcome :=
        if spread > allowance then InfrastructureInvalid
        else if AllExceed(candidates, baseline + allowance) then Regression
        else if AnyExceeds(candidates, baseline + allowance) then Inconclusive
        else Passed;
      Ok(Gate(baseline, candidates, allowance, spread, outcome))
  }

  /** Each verdict and what it says of the builds, one against the other. */
  lemma VerdictMeans(baselines: seq<int>, candidates: seq<int>, fixed: int, proportion: real)
    requires ConfirmedMemoryGate(baselines, candidates, fixed, proportion).Ok?
    ensures var gate := ConfirmedMemoryGate(baselines, candidates, fixed, proportion).value;
            var stable := forall a, b :: a in baselines && b in baselines ==> a - b <= gate.allowance;
            && (gate.outcome == InfrastructureInvalid <==> !stable)
            && (gate.outcome == Regression <==>
                  stable && forall c :: c in candidates ==> c - gate.baseline > gate.allowance)
            && (gate.outcome == Passed <==>
                  stable && forall c :: c in candidates ==> c - gate.baseline <= gate.allowance)
  {
    hide RoundedMean, Allowance, Round;
    var gate := ConfirmedMemoryGate(baselines, candidates, fixed, proportion).value;
    AllMeansAny(candidates, gate.baseline + gate.allowance);
    assert candidates[0] in candidates;
  }

  // ---------------------------------------------------------------- the numbers

  /** An integer is as near to a fraction as any, and even when two are. */
  ghost predicate IsNearest(n: int, numerator: real, denominator: real) {
    && -denominator <= 2.0 * (n as real * denominator - numerator) <= denominator
    && (2.0 * (n as real * denominator - numerator) == denominator ==> n % 2 == 0)
    && (2.0 * (n as real * denominator - numerator) == -denominator ==> n % 2 == 0)
  }

  /** A total is what one value is, and what the totals of two parts add up to. */
  lemma {:induction false} TotalAdds(a: seq<int>, b: seq<int>)
    ensures Total(a + b) == Total(a) + Total(b)
    ensures forall v :: Total([v]) == v
  {
    if a == [] {
      assert a + b == b;
    } else {
      TotalAdds(a[1..], b);
      assert (a + b)[1..] == a[1..] + b;
    }
  }

  lemma RoundOf(numerator: real, denominator: real, n: int)
    requires 0.0 < denominator
    ensures n == Round(numerator / denominator) <==> IsNearest(n, numerator, denominator)
  {
    var x := numerator / denominator;
    RoundIsNearest(x, n);
    assert x * denominator == numerator;
    Scaled(n as real - x, denominator);
    assert n as real * denominator - numerator == (n as real - x) * denominator;
  }

  lemma Scaled(d: real, denominator: real)
    requires 0.0 < denominator
    ensures -1.0 <= 2.0 * d <= 1.0 <==> -denominator <= 2.0 * (d * denominator) <= denominator
    ensures 2.0 * d == 1.0 <==> 2.0 * (d * denominator) == denominator
    ensures 2.0 * d == -1.0 <==> 2.0 * (d * denominator) == -denominator
  {
    var e := 2.0 * d;
    assert 2.0 * (d * denominator) == e * denominator;
    if e > 1.0 { assert (e - 1.0) * denominator > 0.0; }
    if e < 1.0 { assert (1.0 - e) * denominator > 0.0; }
    if e > -1.0 { assert (e + 1.0) * denominator > 0.0; }
    if e < -1.0 { assert (-1.0 - e) * denominator > 0.0; }
  }

  lemma RoundOfWhole(x: real, n: int)
    ensures n == Round(x) <==> IsNearest(n, x, 1.0)
  {
    RoundIsNearest(x, n);
  }

  lemma AllowanceMeans(baseline: int, fixed: int, proportion: real) returns (share: int)
    ensures IsNearest(share, Times(baseline as real, proportion), 1.0)
    ensures var allowance := Allowance(baseline, fixed, proportion);
            fixed <= allowance && share <= allowance && (allowance == fixed || allowance == share)
  {
    hide Round, IsNearest, Times;
    var amount := Times(baseline as real, proportion);
    share := Round(amount);
    RoundOfWhole(amount, share);
  }

  /** Every number a gate reports: the baseline nearest to the mean, the allowance the larger of the fixed bytes and of
      what is nearest to the share of the baseline, and the spread between two of the baselines, as wide as any. */
  lemma NumbersMean(baselines: seq<int>, candidates: seq<int>, fixed: int, proportion: real) returns (share: int)
    requires ConfirmedMemoryGate(baselines, candidates, fixed, proportion).Ok?
    ensures var gate := ConfirmedMemoryGate(baselines, candidates, fixed, proportion).value;
            && IsNearest(gate.baseline, Total(baselines) as real, |baselines| as real)
            && IsNearest(share, Times(gate.baseline as real, proportion), 1.0)
            && fixed <= gate.allowance && share <= gate.allowance
            && (gate.allowance == fixed || gate.allowance == share)
            && (exists a, b :: a in baselines && b in baselines && gate.spread == a - b)
            && (forall a, b :: a in baselines && b in baselines ==> a - b <= gate.spread)
            && gate.candidates == candidates
  {
    hide Round, Total, IsNearest, Allowance;
    var gate := ConfirmedMemoryGate(baselines, candidates, fixed, proportion).value;
    RoundOf(Total(baselines) as real, |baselines| as real, gate.baseline);
    share := AllowanceMeans(gate.baseline, fixed, proportion);
    assert Largest(baselines) in baselines && Smallest(baselines) in baselines;
  }

  /** When there is no gate, and why. */
  lemma GateErrors(baselines: seq<int>, candidates: seq<int>, fixed: int, proportion: real)
    ensures var gate := ConfirmedMemoryGate(baselines, candidates, fixed, proportion);
            var few := |baselines| < 3 || |candidates| < 3;
            && (gate == Err(TooFewBuilds) <==> few)
            && (gate == Err(NegativeObservation) <==>
                  !few && ((exists v :: v in baselines && v < 0) || exists v :: v in candidates && v < 0))
  {
    hide RoundedMean, Allowance;
    forall v ensures v in baselines + candidates <==> v in baselines || v in candidates {
    }
  }

  // ---------------------------------------------------------------- separation

  lemma {:induction false} TotalWithin(values: seq<int>, low: int, high: int)
    requires forall i :: 0 <= i < |values| ==> low <= values[i] <= high
    ensures |values| * low <= Total(values) <= |values| * high
  {
    if values != [] {
      TotalWithin(values[1..], low, high);
      assert |values| * low == low + |values[1..]| * low && |values| * high == high + |values[1..]| * high;
    }
  }

  lemma QuotientWithin(total: int, count: int, low: int, high: int)
    requires 0 < count && count * low <= total <= count * high
    ensures low as real <= total as real / count as real <= high as real
  {
    var q := total as real / count as real;
    assert q * count as real == total as real;
    assert (count * low) as real == count as real * low as real;
    assert (count * high) as real == count as real * high as real;
  }

  /** The rounded mean lies among the values. */
  lemma RoundedMeanWithin(values: seq<int>)
    requires values != []
    ensures Smallest(values) <= RoundedMean(values) <= Largest(values)
  {
    var low, high := Smallest(values), Largest(values);
    assert forall i :: 0 <= i < |values| ==> values[i] in values;
    TotalWithin(values, low, high);
    QuotientWithin(Total(values), |values|, low, high);
    RoundAscends(low as real, Total(values) as real / |values| as real);
    RoundAscends(Total(values) as real / |values| as real, high as real);
  }

  /** A regression separates the samples: every candidate build is larger than every baseline build. */
  lemma RegressionSeparates(baselines: seq<int>, candidates: seq<int>, fixed: int, proportion: real, b: int, c: int)
    requires var gate := ConfirmedMemoryGate(baselines, candidates, fixed, proportion);
             gate.Ok? && gate.value.outcome == Regression
    requires b in baselines && c in candidates
    ensures b < c
  {
    hide RoundedMean, Allowance;
    RoundedMeanWithin(baselines);
  }

  /** Once the baseline spread is accepted, candidates no larger than the largest baseline pass. */
  lemma NoLargerPasses(baselines: seq<int>, candidates: seq<int>, fixed: int, proportion: real)
    requires var gate := ConfirmedMemoryGate(baselines, candidates, fixed, proportion);
             gate.Ok? && gate.value.spread <= gate.value.allowance
    requires forall c :: c in candidates ==> c <= Largest(baselines)
    ensures ConfirmedMemoryGate(baselines, candidates, fixed, proportion).value.outcome == Passed
  {
    hide RoundedMean, Allowance;
    RoundedMeanWithin(baselines);
    assert candidates[0] in candidates;
    var gate := ConfirmedMemoryGate(baselines, candidates, fixed, proportion).value;
    assert Largest(baselines) <= gate.baseline + gate.allowance;
    assert !AnyExceeds(candidates, gate.baseline + gate.allowance);
    assert candidates[0] <= gate.baseline + gate.allowance;
  }

  // ---------------------------------------------------------------- monotonicity

  /** Raising candidates never improves the verdict. */
  lemma RaisingNeverImproves(baselines: seq<int>, lower: seq<int>, higher: seq<int>, fixed: int, proportion: real)
    requires |lower| == |higher| && forall i :: 0 <= i < |lower| ==> lower[i] <= higher[i]
    requires ConfirmedMemoryGate(baselines, lower, fixed, proportion).Ok?
    ensures var before := ConfirmedMemoryGate(baselines, lower, fixed, proportion).value;
            var after := ConfirmedMemoryGate(baselines, higher, fixed, proportion);
            after.Ok? && Rank(before.outcome) <= Rank(after.value.outcome)
  {
    hide RoundedMean, Allowance, AllExceed, AnyExceeds;
    var limit := RoundedMean(baselines) + Allowance(RoundedMean(baselines), fixed, proportion);
    RaisedStaysNonnegative(baselines, lower, higher);
    RaisedExceeds(lower, higher, limit);
    AllMeansAny(higher, limit);
  }

  lemma RaisedStaysNonnegative(baselines: seq<int>, lower: seq<int>, higher: seq<int>)
    requires |lower| == |higher| && forall i :: 0 <= i < |lower| ==> lower[i] <= higher[i]
    requires !exists v :: v in baselines + lower && v < 0
    ensures !exists v :: v in baselines + higher && v < 0
  {
    forall v | v in baselines + higher
      ensures 0 <= v
    {
      if v in baselines {
        assert v in baselines + lower;
      } else {
        var i :| 0 <= i < |higher| && higher[i] == v;
        assert lower[i] in baselines + lower;
      }
    }
  }

  lemma RaisedExceeds(lower: seq<int>, higher: seq<int>, limit: int)
    requires |lower| == |higher| && forall i :: 0 <= i < |lower| ==> lower[i] <= higher[i]
    ensures AllExceed(lower, limit) ==> AllExceed(higher, limit)
    ensures AnyExceeds(lower, limit) ==> AnyExceeds(higher, limit)
  {
    if AllExceed(lower, limit) {
      forall v | v in higher
        ensures v > limit
      {
        var i :| 0 <= i < |higher| && higher[i] == v;
        assert lower[i] in lower;
      }
    }
    if AnyExceeds(lower, limit) {
      var v :| v in lower && v > limit;
      var i :| 0 <= i < |lower| && lower[i] == v;
      assert higher[i] in higher;
    }
  }

  lemma AllMeansAny(values: seq<int>, limit: int)
    ensures values != [] && AllExceed(values, limit) ==> AnyExceeds(values, limit)
  {
    if values != [] && AllExceed(values, limit) {
      assert values[0] in values && values[0] > limit;
    }
  }

  // ---------------------------------------------------------------- order of the builds

  lemma {:induction false} TotalWithout(values: seq<int>, i: nat)
    requires i < |values|
    ensures Total(values) == values[i] + Total(values[..i] + values[i + 1..])
  {
    var rest := values[..i] + values[i + 1..];
    if i == 0 {
      assert rest == values[1..];
    } else {
      TotalWithout(values[1..], i - 1);
      assert rest == [values[0]] + (values[1..][..i - 1] + values[1..][i..]);
    }
  }

  lemma RemoveOne(values: seq<int>, i: nat)
    requires i < |values|
    ensures multiset(values[..i] + values[i + 1..]) == multiset(values) - multiset{values[i]}
  {
    assert values == values[..i] + [values[i]] + values[i + 1..];
  }

  lemma RemoveBoth(a: seq<int>, b: seq<int>, i: nat)
    requires multiset(a) == multiset(b) && a != [] && i < |b| && b[i] == a[0]
    ensures multiset(a[1..]) == multiset(b[..i] + b[i + 1..])
  {
    RemoveOne(a, 0);
    RemoveOne(b, i);
    assert a[..0] + a[1..] == a[1..];
  }

  lemma {:induction false} TotalPermuted(a: seq<int>, b: seq<int>)
    requires multiset(a) == multiset(b)
    ensures Total(a) == Total(b)
    decreases |a|
  {
    hide Largest, Smallest;
    if a == [] {
      assert |multiset(b)| == |b|;
    } else {
      assert a[0] in multiset(b);
      var i :| 0 <= i < |b| && b[i] == a[0];
      TotalWithout(b, i);
      RemoveBoth(a, b, i);
      hide Total;
      TotalPermuted(a[1..], b[..i] + b[i + 1..]);
    }
  }

  lemma SameElements(a: seq<int>, b: seq<int>)
    requires multiset(a) == multiset(b)
    ensures |a| == |b| && forall v :: v in a <==> v in b
  {
    assert |multiset(a)| == |a| && |multiset(b)| == |b|;
    forall v
      ensures v in a <==> v in b
    {
      assert v in a <==> v in multiset(a);
    }
  }

  /** Reordering the builds changes neither the verdict nor any reported number. */
  lemma OrderIrrelevant(a: seq<int>, b: seq<int>, c: seq<int>, d: seq<int>, fixed: int, proportion: real)
    requires multiset(a) == multiset(b) && multiset(c) == multiset(d)
    ensures var first := ConfirmedMemoryGate(a, c, fixed, proportion);
            var second := ConfirmedMemoryGate(b, d, fixed, proportion);
            && (first.Err? ==> second == first)
            && (first.Ok? ==> second == Ok(first.value.(candidates := d)))
  {
    hide RoundedMean, Allowance;
    SameElements(a, b);
    SameElements(c, d);
    if |a| >= 3 { SameNumbers(a, b); }
    SameNegatives(a, b, c, d);
  }

  lemma SameNumbers(a: seq<int>, b: seq<int>)
    requires multiset(a) == multiset(b) && a != []
    ensures b != [] && RoundedMean(a) == RoundedMean(b) && Largest(a) == Largest(b) && Smallest(a) == Smallest(b)
  {
    hide Round, Total;
    SameElements(a, b);
    TotalPermuted(a, b);
    assert Largest(a) in a && Largest(b) in b && Smallest(a) in a && Smallest(b) in b;
  }

  lemma SameNegatives(a: seq<int>, b: seq<int>, c: seq<int>, d: seq<int>)
    requires forall v :: v in a <==> v in b
    requires forall v :: v in c <==> v in d
    ensures (exists v :: v in a + c && v < 0) <==> (exists v :: v in b + d && v < 0)
  {
    forall v
      ensures v in a + c <==> v in b + d
    {
      assert v in a + c <==> v in a || v in c;
      assert v in b + d <==> v in b || v in d;
    }
  }
}
