/** A whole benchmark run: every shape's blocks, and the weighted gate they feed. */
module BenchmarkRun {
  import opened Results
  import opened Performance
  import opened WeightedGate
  import opened WeightedGateProperties
  import opened PairedBlocks

  /** The locked benchmark policy. */
  datatype BenchmarkPolicy<K(==,!new)> = BenchmarkPolicy(
    minimum: nat, replicates: int, seed: int, aggregateAllowance: real, weights: map<K, real>, allowances: map<K, real>)

  function WorkloadOf<K(!new)>(order: seq<K>, pairs: map<K, seq<AcceptedPair>>,
                               policy: BenchmarkPolicy<K>): Workload<K> {
    Workload(order, pairs, policy.weights, policy.allowances, policy.aggregateAllowance, policy.seed, policy.replicates,
             policy.minimum)
  }

  /** The blocks and pairs kept for one shape: each pair is grounded in two accepted blocks, the budget of attempts
      is respected, and a shape is short only when the budget is spent. */
  ghost predicate ShapeCollected<E>(policy: Policy, minimum: nat, records: seq<Record<E>>, pairs: seq<AcceptedPair>,
                                    baseline: E, candidate: E) {
    exists attempts: nat :: ShapeCollectedIn(policy, minimum, records, pairs, baseline, candidate, attempts)
  }

  ghost predicate ShapeCollectedIn<E>(policy: Policy, minimum: nat, records: seq<Record<E>>, pairs: seq<AcceptedPair>,
                                      baseline: E, candidate: E, attempts: nat) {
    && Collected(policy, records, pairs, attempts, baseline, candidate)
    && |pairs| <= minimum && |pairs| <= attempts <= 3 * minimum
    && (|pairs| < minimum ==> attempts == 3 * minimum)
  }

  /** The records of the shapes one after the other. */
  ghost function AllRecords<E, K(!new)>(order: seq<K>, blocks: map<K, seq<Record<E>>>): seq<Record<E>>
    requires forall k :: k in order ==> k in blocks
  {
    if order == [] then [] else AllRecords(order[..|order| - 1], blocks) + blocks[order[|order| - 1]]
  }

  lemma {:induction false} OtherShapesKept<E, K(!new)>(order: seq<K>, blocks: map<K, seq<Record<E>>>, shape: K,
                                                       records: seq<Record<E>>)
    requires shape !in order && forall k :: k in order ==> k in blocks
    ensures AllRecords(order, blocks[shape := records]) == AllRecords(order, blocks)
  {
    if order != [] {
      assert order[|order| - 1] in order;
      OtherShapesKept(order[..|order| - 1], blocks, shape, records);
    }
  }

  lemma NoRecords<E, K(!new)>(order: seq<K>, blocks: map<K, seq<Record<E>>>)
    ensures AllRecords(order[..0], blocks) == []
  {
  }

  lemma RecordsGrow<E, K(!new)>(order: seq<K>, blocks: map<K, seq<Record<E>>>, i: nat, records: seq<Record<E>>)
    requires i < |order| && order[i] !in order[..i] && forall k :: k in order[..i] ==> k in blocks
    ensures AllRecords(order[..i + 1], blocks[order[i] := records]) == AllRecords(order[..i], blocks) + records
  {
    OtherShapesKept(order[..i], blocks, order[i], records);
    assert order[..i + 1][..i] == order[..i];
  }

  lemma ShortRunInvalid<K(!new)>(numerics: Numerics, w: Workload<K>, gate: PerformanceGate)
    requires w.Ordered() && w.SameShapes() && IsGate(numerics, w, gate) && gate.outcome != InfrastructureInvalid
    ensures forall k :: k in w.order ==> w.minimumPairs <= |w.pairs[k]|
  {
    hide IsGate;
    forall k | k in w.order ensures w.minimumPairs <= |w.pairs[k]| {
      if |w.pairs[k]| < w.minimumPairs { ShortShapeInvalidates(numerics, w, gate, k); }
    }
  }

  method RunPerformance<E(==), K(==,!new)>(
    bench: Bench<E>, baseline: E, candidate: E, order: seq<K>, policy: BenchmarkPolicy<K>, numerics: Numerics)
    returns (result: Result<PerformanceGate, PerformanceError>, blocks: map<K, seq<Record<E>>>,
             pairs: map<K, seq<AcceptedPair>>)
    requires baseline != candidate
    requires forall i, j :: 0 <= i < j < |order| ==> order[i] != order[j]
    modifies bench
    ensures forall k :: k in order <==> k in pairs
    ensures blocks.Keys == pairs.Keys
    ensures forall k :: k in order ==>
              ShapeCollected(bench.policy, policy.minimum, blocks[k], pairs[k], baseline, candidate)
    ensures Chronicle(bench.hardware, bench.timing, AllRecords(order, blocks), old(bench.readings), old(bench.blocks))
    ensures result.Ok? ==>
              var w := WorkloadOf(order, pairs, policy);
              w.Ordered() && w.SameShapes() && IsGate(numerics, w, result.value)
    ensures result.Ok? && result.value.outcome != InfrastructureInvalid ==>
              forall k :: k in order ==> |pairs[k]| == policy.minimum
  {
    hide ShapeCollected, IsGate, Collected, Chronicle, AllReadings, AllMeasurements, AllRecords;
    blocks, pairs := map[], map[];
    ChronicleNothing<E>(bench.hardware, bench.timing, bench.readings, bench.blocks);
    NoRecords(order, blocks);
    for i := 0 to |order|
      invariant forall k :: k in order[..i] <==> k in pairs
      invariant blocks.Keys == pairs.Keys
      invariant forall k :: k in order[..i] ==>
                  && ShapeCollected(bench.policy, policy.minimum, blocks[k], pairs[k], baseline, candidate)
                  && |pairs[k]| <= policy.minimum
      invariant var all := AllRecords(order[..i], blocks);
                && Chronicle(bench.hardware, bench.timing, all, old(bench.readings), old(bench.blocks))
                && bench.readings == old(bench.readings) + AllReadings(all)
                && bench.blocks == old(bench.blocks) + AllMeasurements(all)
    {
      var accepted, records, attempts := bench.CollectShape(baseline, candidate, policy.minimum);
      CollectedIn(bench.policy, policy.minimum, records, accepted, baseline, candidate, attempts);
      assert order[..i + 1] == order[..i] + [order[i]];
      assert order[i] !in order[..i];
      RecordsGrow(order, blocks, i, records);
      ChronicleMore(bench.hardware, bench.timing, AllRecords(order[..i], blocks), old(bench.readings),
                    old(bench.blocks), records);
      pairs := pairs[order[i] := accepted];
      blocks := blocks[order[i] := records];
    }
    assert order[..|order|] == order;
    var workload := WorkloadOf(order, pairs, policy);
    result := WeightedPerformanceGate(numerics, workload);
    if result.Ok? && result.value.outcome != InfrastructureInvalid {
      ShortRunInvalid(numerics, workload, result.value);
    }
  }

  lemma CollectedIn<E>(policy: Policy, minimum: nat, records: seq<Record<E>>, pairs: seq<AcceptedPair>, baseline: E,
                       candidate: E, attempts: nat)
    requires ShapeCollectedIn(policy, minimum, records, pairs, baseline, candidate, attempts)
    ensures ShapeCollected(policy, minimum, records, pairs, baseline, candidate)
  {
  }
}
