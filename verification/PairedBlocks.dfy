/** Collecting adjacent baseline and candidate blocks on hardware that may refuse at any moment. */
module PairedBlocks {
  import opened Results
  import opened Performance

  datatype Reason =
    | Hardware(why: string)
    | ClockMissing | ClockVariation
    | PowerMissing | PowerVariation
    | LimitMissing | LimitChanged
    | PairedBlockInvalid

  /** One reading of the hardware and why it is not acceptable. */
  datatype Observation = Observation(clock: Option<real>, power: Option<real>, powerLimit: Option<real>,
                                     reasons: seq<Reason>)

  datatype Policy = Policy(clockVariation: real, powerVariation: real, stablePowerLimit: bool)

  // ---------------------------------------------------------------- variation inside a block

  function Distance(x: real, y: real): real {
    if x <= y then y - x else x - y
  }

  /** A reading is missing, or the first gives nothing to compare with. */
  predicate Unmeasured(first: Option<real>, second: Option<real>) {
    first.None? || second.None? || first.value <= 0.0
  }

  /** The second reading strays from the first by more than the allowed ratio. */
  predicate Strays(first: Option<real>, second: Option<real>, allowance: real) {
    !Unmeasured(first, second) && Distance(first.value, second.value) / first.value > allowance
  }

  predicate Steady(first: Option<real>, second: Option<real>, allowance: real) {
    !Unmeasured(first, second) && !Strays(first, second, allowance)
  }

  predicate SteadyLimit(policy: Policy, before: Observation, after: Observation) {
    policy.stablePowerLimit ==> before.powerLimit.Some? && before.powerLimit == after.powerLimit
  }

  /** Nothing about the hardware changed too much during a block. */
  predicate SteadyBlock(policy: Policy, before: Observation, after: Observation) {
    && Steady(before.clock, after.clock, policy.clockVariation)
    && Steady(before.power, after.power, policy.powerVariation)
    && SteadyLimit(policy, before, after)
  }

  /** Both readings are there and the first is positive. */
  ghost predicate Comparable(first: Option<real>, second: Option<real>) {
    first.Some? && second.Some? && 0.0 < first.value
  }

  /** The second reading lies outside the band around the first that the allowed ratio spans. */
  lemma StraysMeans(first: Option<real>, second: Option<real>, allowance: real)
    ensures Unmeasured(first, second) <==> !Comparable(first, second)
    ensures Strays(first, second, allowance) <==>
              && Comparable(first, second)
              && (second.value > first.value + allowance * first.value
                  || second.value < first.value - allowance * first.value)
  {
    if Comparable(first, second) {
      var distance := Distance(first.value, second.value);
      RatioAbove(distance, first.value, allowance);
    }
  }

  lemma RatioAbove(distance: real, whole: real, ratio: real)
    requires 0.0 < whole
    ensures distance / whole > ratio <==> distance > ratio * whole
  {
    assert (distance / whole) * whole == distance;
    if distance / whole > ratio { assert (distance / whole - ratio) * whole > 0.0; }
    if distance / whole < ratio { assert (ratio - distance / whole) * whole > 0.0; }
  }

  /** A block was steady exactly when clock and power were comparable and stayed in their bands, and a power limit
      that must be stable was there and did not change. */
  lemma SteadyMeans(policy: Policy, before: Observation, after: Observation)
    ensures SteadyBlock(policy, before, after) <==>
              && InBand(before.clock, after.clock, policy.clockVariation)
              && InBand(before.power, after.power, policy.powerVariation)
              && (policy.stablePowerLimit ==>
                    before.powerLimit.Some? && after.powerLimit.Some?
                    && before.powerLimit.value == after.powerLimit.value)
  {
    hide Strays, Unmeasured;
    StraysMeans(before.clock, after.clock, policy.clockVariation);
    StraysMeans(before.power, after.power, policy.powerVariation);
  }

  ghost predicate InBand(first: Option<real>, second: Option<real>, allowance: real) {
    && Comparable(first, second)
    && first.value - allowance * first.value <= second.value <= first.value + allowance * first.value
  }

  method BlockVariationReasons(policy: Policy, before: Observation, after: Observation) returns (reasons: seq<Reason>)
    ensures reasons == [] <==> SteadyBlock(policy, before, after)
    ensures ClockMissing in reasons <==> Unmeasured(before.clock, after.clock)
    ensures ClockVariation in reasons <==> Strays(before.clock, after.clock, policy.clockVariation)
    ensures PowerMissing in reasons <==> Unmeasured(before.power, after.power)
    ensures PowerVariation in reasons <==> Strays(before.power, after.power, policy.powerVariation)
    ensures LimitMissing in reasons
            <==> policy.stablePowerLimit && (before.powerLimit.None? || after.powerLimit.None?)
    ensures LimitChanged in reasons
            <==> policy.stablePowerLimit && before.powerLimit.Some? && after.powerLimit.Some?
                 && before.powerLimit != after.powerLimit
  {
    reasons := [];
    var fields := [(before.clock, after.clock, policy.clockVariation, ClockMissing, ClockVariation),
                   (before.power, after.power, policy.powerVariation, PowerMissing, PowerVariation)];
    for i := 0 to 2
      invariant reasons == VariationReasons(fields[..i])
    {
      assert fields[..i + 1][..i] == fields[..i];
      reasons := reasons + FieldReasons(fields[i]);
    }
    assert fields[..2] == fields && fields[..1] == [fields[0]] && fields[..0] == [];
    assert VariationReasons(fields) == FieldReasons(fields[0]) + FieldReasons(fields[1]);
    if policy.stablePowerLimit {
      if before.powerLimit.None? || after.powerLimit.None? {
        reasons := reasons + [LimitMissing];
      } else if before.powerLimit != after.powerLimit {
        reasons := reasons + [LimitChanged];
      }
    }
  }

  type Field = (Option<real>, Option<real>, real, Reason, Reason)

  function FieldReasons(field: Field): seq<Reason> {
    if Unmeasured(field.0, field.1) then [field.3]
    else if Strays(field.0, field.1, field.2) then [field.4]
    else []
  }

  ghost function VariationReasons(fields: seq<Field>): seq<Reason> {
    if fields == [] then [] else VariationReasons(fields[..|fields| - 1]) + FieldReasons(fields[|fields| - 1])
  }

  // ---------------------------------------------------------------- records

  datatype Record<E> = Record(
    pairAttempt: nat,
    orderInPair: nat,
    environment: E,
    accepted: bool,
    reasons: seq<Reason>,
    idle: seq<Observation>,
    before: Option<Observation>,
    after: Option<Observation>,
    median: Option<real>,
    pairIndex: Option<nat>
  )

  /** The wait for an idle device: up to sixty readings, all but the last refused. */
  ghost predicate IdleLog(idle: seq<Observation>) {
    && 1 <= |idle| <= 60
    && (forall i :: 0 <= i < |idle| - 1 ==> idle[i].reasons != [])
    && (|idle| < 60 ==> idle[|idle| - 1].reasons == [])
  }

  /** What a record says agrees with what was observed: it is accepted only when the device was idle, then
      acceptable before and after, and steady in between. */
  ghost predicate Evidence<E>(policy: Policy, r: Record<E>) {
    && IdleLog(r.idle)
    && (r.accepted <==> r.reasons == [])
    && (r.accepted ==>
          && r.idle[|r.idle| - 1].reasons == [] && r.median.Some?
          && r.before.Some? && r.before.value.reasons == []
          && r.after.Some? && r.after.value.reasons == []
          && SteadyBlock(policy, r.before.value, r.after.value))
    && (r.median.None? ==>
          r.reasons == r.idle[|r.idle| - 1].reasons || (r.before.Some? && r.reasons == r.before.value.reasons))
    && (r.median.Some? ==>
          && r.before.Some? && r.after.Some?
          && (r.after.value.reasons == [] && SteadyBlock(policy, r.before.value, r.after.value) ==>
                r.accepted || r.reasons == [PairedBlockInvalid]))
    && (r.pairIndex.Some? ==> r.accepted)
  }

  /** The readings of a block, and it was measured, were acceptable and steady. */
  ghost predicate Acceptable<E>(policy: Policy, r: Record<E>) {
    r.median.Some? && r.before.Some? && r.after.Some? && r.after.value.reasons == []
    && SteadyBlock(policy, r.before.value, r.after.value)
  }

  /** How far a block got: it was observed before measuring only on an idle device, and measured and observed after
      only when that was acceptable. */
  ghost predicate Staged<E>(r: Record<E>) {
    && r.idle != []
    && (r.before.Some? <==> r.idle[|r.idle| - 1].reasons == [])
    && (r.median.Some? <==> r.before.Some? && r.before.value.reasons == [])
    && (r.after.Some? <==> r.median.Some?)
  }

  /** How many readings a block took, and how many measurements. */
  ghost function Readings<E>(r: Record<E>): nat {
    |r.idle| + (if r.before.Some? then 1 else 0) + if r.after.Some? then 1 else 0
  }

  ghost function Measurements<E>(r: Record<E>): nat {
    if r.median.Some? then 1 else 0
  }

  /** What a record holds is what the hardware answered, reading by reading, from the given ones on. */
  ghost predicate Grounded<E>(hardware: (nat, bool) -> Observation, timing: nat -> real, r: Record<E>, reading: nat,
                              block: nat) {
    && (forall i :: 0 <= i < |r.idle| ==> r.idle[i] == hardware(reading + i, true))
    && (r.before.Some? ==> r.before.value == hardware(reading + |r.idle|, false))
    && (r.after.Some? ==> r.after.value == hardware(reading + |r.idle| + 1, false))
    && (r.median.Some? ==> r.median.value == timing(block))
  }

  ghost function AllReadings<E>(records: seq<Record<E>>): nat {
    if records == [] then 0 else AllReadings(records[..|records| - 1]) + Readings(records[|records| - 1])
  }

  ghost function AllMeasurements<E>(records: seq<Record<E>>): nat {
    if records == [] then 0 else AllMeasurements(records[..|records| - 1]) + Measurements(records[|records| - 1])
  }

  /** The records hold consecutive readings and consecutive measurements, none left out. */
  ghost predicate Chronicle<E>(hardware: (nat, bool) -> Observation, timing: nat -> real, records: seq<Record<E>>,
                               reading: nat, block: nat) {
    records != [] ==>
      var before, last := records[..|records| - 1], records[|records| - 1];
      && Chronicle(hardware, timing, before, reading, block) && Staged(last)
      && Grounded(hardware, timing, last, reading + AllReadings(before), block + AllMeasurements(before))
  }

  lemma ChronicleNothing<E>(hardware: (nat, bool) -> Observation, timing: nat -> real, reading: nat, block: nat)
    ensures Chronicle<E>(hardware, timing, [], reading, block)
    ensures AllReadings<E>([]) == AllMeasurements<E>([]) == 0
  {
  }

  lemma ChronicleOne<E>(hardware: (nat, bool) -> Observation, timing: nat -> real, records: seq<Record<E>>,
                        reading: nat, block: nat, r: Record<E>)
    ensures Chronicle(hardware, timing, records + [r], reading, block)
            <==> Chronicle(hardware, timing, records, reading, block) && Staged(r)
                 && Grounded(hardware, timing, r, reading + AllReadings(records), block + AllMeasurements(records))
    ensures AllReadings(records + [r]) == AllReadings(records) + Readings(r)
    ensures AllMeasurements(records + [r]) == AllMeasurements(records) + Measurements(r)
  {
    hide Grounded, Staged, Readings, Measurements;
    var all := records + [r];
    assert all[..|all| - 1] == records && all[|all| - 1] == r;
  }

  lemma {:induction false} ChronicleMore<E>(hardware: (nat, bool) -> Observation, timing: nat -> real,
                                            records: seq<Record<E>>, reading: nat, block: nat, more: seq<Record<E>>)
    requires Chronicle(hardware, timing, records, reading, block)
    requires Chronicle(hardware, timing, more, reading + AllReadings(records), block + AllMeasurements(records))
    ensures Chronicle(hardware, timing, records + more, reading, block)
    ensures AllReadings(records + more) == AllReadings(records) + AllReadings(more)
    ensures AllMeasurements(records + more) == AllMeasurements(records) + AllMeasurements(more)
  {
    hide Grounded, Staged, Readings, Measurements;
    if more == [] {
      ChronicleNothing<E>(hardware, timing, reading, block);
      assert records + more == records;
    } else {
      hide Chronicle, AllReadings, AllMeasurements;
      var before, last := more[..|more| - 1], more[|more| - 1];
      assert more == before + [last];
      ChronicleOne(hardware, timing, before, reading + AllReadings(records), block + AllMeasurements(records), last);
      ChronicleMore(hardware, timing, records, reading, block, before);
      assert records + more == (records + before) + [last];
      ChronicleOne(hardware, timing, records + before, reading, block, last);
    }
  }

  /** The verdict on a record and its pair number are no readings. */
  lemma {:induction false} ChronicleOfVerdicts<E>(hardware: (nat, bool) -> Observation, timing: nat -> real,
                                                  records: seq<Record<E>>, judged: seq<Record<E>>, reading: nat,
                                                  block: nat)
    requires Chronicle(hardware, timing, records, reading, block) && |judged| == |records|
    requires forall i :: 0 <= i < |records| ==> SameReadings(records[i], judged[i])
    ensures Chronicle(hardware, timing, judged, reading, block)
    ensures AllReadings(judged) == AllReadings(records) && AllMeasurements(judged) == AllMeasurements(records)
  {
    hide Chronicle, AllReadings, AllMeasurements;
    if records == [] {
      assert records == judged;
    } else {
      var before, last := records[..|records| - 1], records[|records| - 1];
      var judgedBefore, judgedLast := judged[..|judged| - 1], judged[|judged| - 1];
      assert records == before + [last] && judged == judgedBefore + [judgedLast];
      ChronicleOne(hardware, timing, before, reading, block, last);
      ChronicleOfVerdicts(hardware, timing, before, judgedBefore, reading, block);
      ChronicleOne(hardware, timing, judgedBefore, reading, block, judgedLast);
      SameReadingsGround(hardware, timing, last, judgedLast, reading + AllReadings(before),
                         block + AllMeasurements(before));
    }
  }

  lemma SameReadingsAccept<E>(policy: Policy, a: Record<E>, b: Record<E>)
    requires SameReadings(a, b)
    ensures Acceptable(policy, a) <==> Acceptable(policy, b)
  {
  }

  lemma SameReadingsGround<E>(hardware: (nat, bool) -> Observation, timing: nat -> real, a: Record<E>, b: Record<E>,
                              reading: nat, block: nat)
    requires SameReadings(a, b)
    ensures Staged(a) <==> Staged(b)
    ensures Grounded(hardware, timing, a, reading, block) <==> Grounded(hardware, timing, b, reading, block)
    ensures Readings(a) == Readings(b) && Measurements(a) == Measurements(b)
  {
  }

  ghost predicate SameReadings<E>(a: Record<E>, b: Record<E>) {
    a.idle == b.idle && a.before == b.before && a.after == b.after && a.median == b.median
  }

  /** Two records that make pair number `k`, in whichever order they ran. */
  ghost predicate MakesPair<E>(first: Record<E>, second: Record<E>, baseline: E, candidate: E, k: nat,
                               pair: AcceptedPair) {
    && first.accepted && second.accepted && first.pairIndex == second.pairIndex == Some(k)
    && first.pairAttempt == second.pairAttempt && first.orderInPair == 0 && second.orderInPair == 1
    && (|| (first.environment == baseline && second.environment == candidate
            && first.median == Some(pair.baseline) && second.median == Some(pair.candidate))
        || (first.environment == candidate && second.environment == baseline
            && first.median == Some(pair.candidate) && second.median == Some(pair.baseline)))
  }

  /** What one attempt leaves: a pair of accepted records, or only refused ones. */
  ghost predicate Attempted<E>(policy: Policy, records: seq<Record<E>>, baseline: E, candidate: E, attempt: nat, k: nat,
                               pair: Option<AcceptedPair>) {
    && 1 <= |records| <= 2
    && (forall i :: 0 <= i < |records| ==> Evidence(policy, records[i]) && records[i].pairAttempt == attempt)
    && (pair.Some? ==> |records| == 2 && MakesPair(records[0], records[1], baseline, candidate, k, pair.value))
    && (pair.None? ==> forall i :: 0 <= i < |records| ==> !records[i].accepted)
    && (pair.None? ==> !Acceptable(policy, records[|records| - 1]))
    && (|records| == 2 ==> Acceptable(policy, records[0]))
  }

  // ---------------------------------------------------------------- the bench

  /** The hardware answers each reading, each measured block and each toss of the generator as it likes. */
  class Bench<E(==)> {
    const hardware: (nat, bool) -> Observation
    const timing: nat -> real
    const coin: nat -> bool
    const policy: Policy
    var readings: nat
    var blocks: nat
    var tosses: nat

    constructor (hardware: (nat, bool) -> Observation, timing: nat -> real, coin: nat -> bool, policy: Policy)
      ensures this.hardware == hardware && this.timing == timing && this.coin == coin && this.policy == policy
      ensures readings == blocks == tosses == 0
    {
      this.hardware, this.timing, this.coin, this.policy := hardware, timing, coin, policy;
      readings, blocks, tosses := 0, 0, 0;
    }

    method Observe(requireIdle: bool) returns (observed: Observation)
      modifies this`readings
      ensures observed == hardware(old(readings), requireIdle) && readings == old(readings) + 1
    {
      observed := hardware(readings, requireIdle);
      readings := readings + 1;
    }

    method AwaitIdle() returns (idle: seq<Observation>)
      modifies this`readings
      ensures IdleLog(idle) && readings == old(readings) + |idle|
      ensures forall i :: 0 <= i < |idle| ==> idle[i] == hardware(old(readings) + i, true)
    {
      idle := [];
      for attempt := 0 to 60
        invariant |idle| == attempt && readings == old(readings) + |idle|
        invariant forall i :: 0 <= i < |idle| ==> idle[i].reasons != [] && idle[i] == hardware(old(readings) + i, true)
      {
        var observed := Observe(true);
        idle := idle + [observed];
        if observed.reasons == [] {
          return;
        }
      }
    }

    /** One block of one environment: wait, warm up, measure, and judge the readings around it. */
    method RunBlock(attempt: nat, orderInPair: nat, environment: E) returns (record: Record<E>)
      modifies this`readings, this`blocks
      ensures Evidence(policy, record) && record.pairIndex == None
      ensures record.pairAttempt == attempt && record.orderInPair == orderInPair && record.environment == environment
      ensures Staged(record) && Grounded(hardware, timing, record, old(readings), old(blocks))
      ensures readings == old(readings) + Readings(record) && blocks == old(blocks) + Measurements(record)
      ensures record.accepted <==> Acceptable(policy, record)
      ensures record.before.None? ==> record.reasons == record.idle[|record.idle| - 1].reasons
      ensures record.before.Some? && record.median.None? ==> record.reasons == record.before.value.reasons
      ensures record.after.Some? ==> record.after.value.reasons <= record.reasons
    {
      var idle := AwaitIdle();
      var idleReasons := idle[|idle| - 1].reasons;
      if idleReasons != [] {
        return Record(attempt, orderInPair, environment, false, idleReasons, idle, None, None, None, None);
      }
      var before := Observe(false);
      if before.reasons != [] {
        return Record(attempt, orderInPair, environment, false, before.reasons, idle, Some(before), None, None, None);
      }
      var median := timing(blocks);
      blocks := blocks + 1;
      var after := Observe(false);
      var variation := BlockVariationReasons(policy, before, after);
      var reasons := after.reasons + variation;
      record := Record(attempt, orderInPair, environment, reasons == [], reasons, idle, Some(before), Some(after),
                       Some(median), None);
    }

    /** One attempt at a pair, the environments in an order the generator picks. */
    method RunAttempt(baseline: E, candidate: E, attempt: nat, k: nat)
      returns (records: seq<Record<E>>, pair: Option<AcceptedPair>)
      requires baseline != candidate
      modifies this
      ensures Attempted(policy, records, baseline, candidate, attempt, k, pair)
      ensures records[0].environment == if coin(old(tosses)) then candidate else baseline
      ensures tosses == old(tosses) + 1
      ensures Chronicle(hardware, timing, records, old(readings), old(blocks))
      ensures readings == old(readings) + AllReadings(records) && blocks == old(blocks) + AllMeasurements(records)
    {
      hide Evidence, Acceptable, Chronicle, Staged, Grounded, AllReadings, AllMeasurements, Readings, Measurements;
      var order := [baseline, candidate];
      if coin(tosses) {
        order := [candidate, baseline];
      }
      tosses := tosses + 1;
      var medians: map<E, real> := map[];
      records := [];
      ChronicleNothing<E>(hardware, timing, readings, blocks);
      var orderIndex := 0;
      while orderIndex < 2
        invariant orderIndex == |records| <= 2
        invariant forall i :: 0 <= i < |records| ==> Ran(records[i], order[i], attempt, i) && records[i].accepted
        invariant forall i :: 0 <= i < |records| ==> order[i] in medians && records[i].median == Some(medians[order[i]])
        invariant Chronicle(hardware, timing, records, old(readings), old(blocks)) && tosses == old(tosses) + 1
        invariant readings == old(readings) + AllReadings(records) && blocks == old(blocks) + AllMeasurements(records)
      {
        var record := RunBlock(attempt, orderIndex, order[orderIndex]);
        if record.median.Some? {
          medians := medians[order[orderIndex] := record.median.value];
        }
        ChronicleOne(hardware, timing, records, old(readings), old(blocks), record);
        records := records + [record];
        if !record.accepted {
          break;
        }
        orderIndex := orderIndex + 1;
      }
      if |records| == 2 && records[0].accepted && records[1].accepted {
        NumberKeepsEvidence(policy, records[0], k);
        NumberKeepsEvidence(policy, records[1], k);
        var numbered := [records[0].(pairIndex := Some(k)), records[1].(pairIndex := Some(k))];
        ChronicleOfVerdicts(hardware, timing, records, numbered, old(readings), old(blocks));
        SameReadingsAccept(policy, records[0], numbered[0]);
        records := numbered;
        pair := Some(AcceptedPair(medians[baseline], medians[candidate]));
      } else {
        var refused := RefuseAll(attempt, records);
        ChronicleOfVerdicts(hardware, timing, records, refused, old(readings), old(blocks));
        SameReadingsAccept(policy, records[0], refused[0]);
        SameReadingsAccept(policy, records[|records| - 1], refused[|records| - 1]);
        records := refused;
        pair := None;
      }
    }

    /** Refuse the blocks of an attempt that made no pair. */
    method RefuseAll(attempt: nat, records: seq<Record<E>>) returns (refused: seq<Record<E>>)
      requires forall j :: 0 <= j < |records| ==>
                 Evidence(policy, records[j]) && records[j].pairIndex == None && records[j].pairAttempt == attempt
      ensures |refused| == |records|
      ensures forall j :: 0 <= j < |records| ==>
                Evidence(policy, refused[j]) && !refused[j].accepted && refused[j].pairAttempt == attempt
      ensures forall j :: 0 <= j < |records| ==>
                refused[j] == if records[j].accepted
                              then records[j].(accepted := false, reasons := [PairedBlockInvalid]) else records[j]
    {
      hide Evidence;
      refused := records;
      for i := 0 to |records|
        invariant |refused| == |records|
        invariant forall j :: 0 <= j < i ==>
                    Evidence(policy, refused[j]) && !refused[j].accepted && refused[j].pairAttempt == attempt
        invariant forall j :: i <= j < |records| ==> refused[j] == records[j]
        invariant forall j :: 0 <= j < i ==>
                    refused[j] == if records[j].accepted
                                  then records[j].(accepted := false, reasons := [PairedBlockInvalid]) else records[j]
      {
        if refused[i].accepted {
          DiscardKeepsEvidence(policy, refused[i]);
          refused := refused[i := refused[i].(accepted := false, reasons := [PairedBlockInvalid])];
        }
      }
    }

    ghost predicate Ran(record: Record<E>, environment: E, attempt: nat, orderInPair: nat) {
      && Evidence(policy, record) && record.pairIndex == None
      && record.pairAttempt == attempt && record.orderInPair == orderInPair && record.environment == environment
      && (record.accepted <==> Acceptable(policy, record))
    }

    /** Blocks of one shape until enough pairs are accepted or three times as many attempts are spent. */
    method CollectShape(baseline: E, candidate: E, minimum: nat)
      returns (pairs: seq<AcceptedPair>, records: seq<Record<E>>, attempts: nat)
      requires baseline != candidate
      modifies this
      ensures Collected(policy, records, pairs, attempts, baseline, candidate)
      ensures |pairs| <= minimum && attempts <= 3 * minimum && |pairs| <= attempts
      ensures |pairs| < minimum ==> attempts == 3 * minimum
      ensures Chronicle(hardware, timing, records, old(readings), old(blocks)) && tosses == old(tosses) + attempts
      ensures readings == old(readings) + AllReadings(records) && blocks == old(blocks) + AllMeasurements(records)
    {
      hide Collected, Attempted, Chronicle, AllReadings, AllMeasurements;
      pairs, records, attempts := [], [], 0;
      NothingCollected<E>(policy, baseline, candidate);
      ChronicleNothing<E>(hardware, timing, readings, blocks);
      while |pairs| < minimum && attempts < 3 * minimum
        invariant |pairs| <= minimum && |pairs| <= attempts <= 3 * minimum
        invariant Collected(policy, records, pairs, attempts, baseline, candidate)
        invariant Chronicle(hardware, timing, records, old(readings), old(blocks)) && tosses == old(tosses) + attempts
        invariant readings == old(readings) + AllReadings(records) && blocks == old(blocks) + AllMeasurements(records)
      {
        var more, pair := RunAttempt(baseline, candidate, attempts, |pairs|);
        CollectedMore(policy, records, pairs, attempts, baseline, candidate, more, pair);
        if pair.Some? {
          pairs := pairs + [pair.value];
        }
        ChronicleMore(hardware, timing, records, old(readings), old(blocks), more);
        records := records + more;
        attempts := attempts + 1;
      }
    }
  }

  lemma NumberKeepsEvidence<E>(policy: Policy, r: Record<E>, k: nat)
    requires Evidence(policy, r) && r.accepted
    ensures Evidence(policy, r.(pairIndex := Some(k)))
  {
  }

  lemma DiscardKeepsEvidence<E>(policy: Policy, r: Record<E>)
    requires Evidence(policy, r) && r.accepted && r.pairIndex == None
    ensures Evidence(policy, r.(accepted := false, reasons := [PairedBlockInvalid]))
  {
  }

  // ---------------------------------------------------------------- what a collection keeps

  /** `places[k]` is where the two records of pair `k` start. */
  ghost predicate Placed<E>(places: seq<nat>, records: seq<Record<E>>, pairs: seq<AcceptedPair>, baseline: E,
                            candidate: E) {
    && |places| == |pairs|
    && (forall k :: 0 <= k < |places| ==> places[k] + 1 < |records|)
    && (forall k :: 0 <= k < |places| ==>
          MakesPair(records[places[k]], records[places[k] + 1], baseline, candidate, k, pairs[k]))
    && (forall i :: 0 <= i < |records| && records[i].accepted ==>
          exists k :: 0 <= k < |places| && (i == places[k] || i == places[k] + 1))
  }

  /** The accepted records group by pair number into exactly one block of each environment; every other record
      is refused with a reason. */
  ghost predicate Collected<E>(policy: Policy, records: seq<Record<E>>, pairs: seq<AcceptedPair>, attempts: nat,
                               baseline: E, candidate: E) {
    && (forall i :: 0 <= i < |records| ==> Evidence(policy, records[i]) && records[i].pairAttempt < attempts)
    && (exists places :: Placed(places, records, pairs, baseline, candidate))
  }

  lemma NothingCollected<E>(policy: Policy, baseline: E, candidate: E)
    ensures Collected<E>(policy, [], [], 0, baseline, candidate)
  {
    assert Placed<E>([], [], [], baseline, candidate);
  }

  lemma PlacedMore<E>(places: seq<nat>, policy: Policy, records: seq<Record<E>>, pairs: seq<AcceptedPair>,
                      attempts: nat, baseline: E, candidate: E, more: seq<Record<E>>, pair: Option<AcceptedPair>)
    requires Placed(places, records, pairs, baseline, candidate)
    requires Attempted(policy, more, baseline, candidate, attempts, |pairs|, pair)
    ensures pair.None? ==> Placed(places, records + more, pairs, baseline, candidate)
    ensures pair.Some? ==> Placed(places + [|records|], records + more, pairs + [pair.value], baseline, candidate)
  {
    hide MakesPair, Evidence;
    var all := records + more;
    if pair.Some? {
      var longer := places + [|records|];
      forall i | 0 <= i < |all| && all[i].accepted
        ensures exists k :: 0 <= k < |longer| && (i == longer[k] || i == longer[k] + 1)
      {
        if i < |records| {
          var k :| 0 <= k < |places| && (i == places[k] || i == places[k] + 1);
          assert longer[k] == places[k];
        } else {
          assert longer[|places|] == |records|;
        }
      }
    }
  }

  lemma CollectedMore<E>(policy: Policy, records: seq<Record<E>>, pairs: seq<AcceptedPair>, attempts: nat,
                         baseline: E, candidate: E, more: seq<Record<E>>, pair: Option<AcceptedPair>)
    requires Collected(policy, records, pairs, attempts, baseline, candidate)
    requires Attempted(policy, more, baseline, candidate, attempts, |pairs|, pair)
    ensures Collected(policy, records + more, if pair.Some? then pairs + [pair.value] else pairs, attempts + 1,
                      baseline, candidate)
  {
    hide MakesPair, Evidence;
    var places :| Placed(places, records, pairs, baseline, candidate);
    hide Placed;
    PlacedMore(places, policy, records, pairs, attempts, baseline, candidate, more, pair);
  }

  /** An accepted record carries the number of the pair at whose place it stands. */
  lemma PlacedIndex<E>(places: seq<nat>, records: seq<Record<E>>, pairs: seq<AcceptedPair>, baseline: E, candidate: E,
                       j: nat)
    returns (k: nat)
    requires Placed(places, records, pairs, baseline, candidate) && j < |records| && records[j].accepted
    ensures k < |pairs| == |places| && (j == places[k] || j == places[k] + 1) && records[j].pairIndex == Some(k)
  {
    hide MakesPair, Placed;
    k := PlaceOf(places, records, pairs, baseline, candidate, j);
    PlacedAt(places, records, pairs, baseline, candidate, k);
    PairNumbers(records[places[k]], records[places[k] + 1], baseline, candidate, k, pairs[k]);
  }

  lemma PlaceOf<E>(places: seq<nat>, records: seq<Record<E>>, pairs: seq<AcceptedPair>, baseline: E, candidate: E,
                   j: nat)
    returns (k: nat)
    requires Placed(places, records, pairs, baseline, candidate) && j < |records| && records[j].accepted
    ensures k < |places| == |pairs| && (j == places[k] || j == places[k] + 1)
  {
    hide MakesPair;
    k :| 0 <= k < |places| && (j == places[k] || j == places[k] + 1);
  }

  lemma PairNumbers<E>(first: Record<E>, second: Record<E>, baseline: E, candidate: E, k: nat, pair: AcceptedPair)
    requires MakesPair(first, second, baseline, candidate, k, pair)
    ensures first.pairIndex == second.pairIndex == Some(k)
  {
  }

  lemma PlacedAt<E>(places: seq<nat>, records: seq<Record<E>>, pairs: seq<AcceptedPair>, baseline: E, candidate: E,
                    k: nat)
    requires Placed(places, records, pairs, baseline, candidate) && k < |pairs|
    ensures k < |places| && places[k] + 1 < |records|
    ensures MakesPair(records[places[k]], records[places[k] + 1], baseline, candidate, k, pairs[k])
  {
  }

  lemma EvidenceAccepts<E>(policy: Policy, r: Record<E>)
    requires Evidence(policy, r)
    ensures r.pairIndex.Some? ==> r.accepted
    ensures !r.accepted ==> r.reasons != []
  {
  }

  /** Each pair number belongs to exactly two records, next to each other, one of each environment. */
  lemma TwoRecordsPerPair<E>(policy: Policy, records: seq<Record<E>>, pairs: seq<AcceptedPair>, attempts: nat,
                             baseline: E, candidate: E, k: nat) returns (i: nat)
    requires Collected(policy, records, pairs, attempts, baseline, candidate) && k < |pairs|
    ensures i + 1 < |records| && MakesPair(records[i], records[i + 1], baseline, candidate, k, pairs[k])
    ensures forall j :: 0 <= j < |records| ==> (records[j].pairIndex == Some(k) <==> j == i || j == i + 1)
  {
    hide Placed, Evidence;
    var places :| Placed(places, records, pairs, baseline, candidate);
    PlacedAt(places, records, pairs, baseline, candidate, k);
    i := places[k];
    forall j | 0 <= j < |records| && records[j].pairIndex == Some(k)
      ensures j == i || j == i + 1
    {
      EvidenceAccepts(policy, records[j]);
      var l := PlacedIndex(places, records, pairs, baseline, candidate, j);
    }
  }

  /** A record that no pair took is refused with a reason. */
  lemma OtherRecordsRefused<E>(policy: Policy, records: seq<Record<E>>, pairs: seq<AcceptedPair>, attempts: nat,
                               baseline: E, candidate: E, j: nat)
    requires Collected(policy, records, pairs, attempts, baseline, candidate) && j < |records|
    ensures records[j].accepted <==> records[j].pairIndex.Some?
    ensures records[j].accepted ==> records[j].pairIndex.value < |pairs|
    ensures !records[j].accepted ==> records[j].reasons != []
  {
    hide Placed, Evidence;
    EvidenceAccepts(policy, records[j]);
    var places :| Placed(places, records, pairs, baseline, candidate);
    if records[j].accepted {
      var l := PlacedIndex(places, records, pairs, baseline, candidate, j);
    }
  }
}
