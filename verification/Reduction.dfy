/** Bounded, confirmed reducers: a stateful evaluator and the searches that run on it. */
module Reduction {
  import opened Results

  datatype TrialOutcome = Reproduced | NotReproduced | Inconclusive

  datatype ReductionLimits = ReductionLimits(maximumTrials: int, maximumSeconds: real, confirmationCount: int)

  /** The limits the constructor accepts. */
  predicate LimitsAccepted(limits: ReductionLimits) {
    && limits.confirmationCount <= limits.maximumTrials
    && limits.maximumSeconds > 0.0
    && limits.confirmationCount >= 2
  }

  datatype LimitsError = CannotConfirmOnce | TooFewConfirmations

  /** Limits are made only when one confirmation fits into them, and it takes at least two trials. */
  method MakeLimits(maximumTrials: int, maximumSeconds: real, confirmationCount: int)
    returns (limits: Result<ReductionLimits, LimitsError>)
    ensures limits == Err(CannotConfirmOnce) <==> maximumTrials < confirmationCount || maximumSeconds <= 0.0
    ensures limits == Err(TooFewConfirmations)
            <==> confirmationCount <= maximumTrials && 0.0 < maximumSeconds && confirmationCount < 2
    ensures limits.Ok? <==> LimitsAccepted(ReductionLimits(maximumTrials, maximumSeconds, confirmationCount))
    ensures limits.Ok? ==> limits.value == ReductionLimits(maximumTrials, maximumSeconds, confirmationCount)
  {
    if maximumTrials < confirmationCount || maximumSeconds <= 0.0 {
      return Err(CannotConfirmOnce);
    }
    if confirmationCount < 2 {
      return Err(TooFewConfirmations);
    }
    return Ok(ReductionLimits(maximumTrials, maximumSeconds, confirmationCount));
  }

  /** A predicate trial may answer differently each time it runs: the answer depends on how many trials
      have run before. The clock is read once at the start and then before each trial. */
  datatype World<!C> = World(answer: (nat, C) -> TrialOutcome, clock: nat -> real)

  ghost predicate Deterministic<C(!new)>(world: World<C>) {
    forall i, j, c :: world.answer(i, c) == world.answer(j, c)
  }

  ghost predicate Quiet<C(!new)>(world: World<C>) {
    forall i, c :: !world.answer(i, c).Inconclusive?
  }

  ghost predicate ClockInside<C>(world: World<C>, limits: ReductionLimits) {
    forall k :: world.clock(k) - world.clock(0) < limits.maximumSeconds
  }

  datatype Trial<C> = Trial(candidate: C, outcome: TrialOutcome)

  /** The last `count` trials all ran one candidate and all reproduced. */
  ghost predicate Confirmed<C>(log: seq<Trial<C>>, candidate: C, count: int) {
    && 0 <= count <= |log|
    && forall k :: |log| - count <= k < |log| ==> log[k] == Trial(candidate, Reproduced)
  }

  /** A candidate was confirmed at some point of the log. */
  ghost predicate ConfirmedEarlier<C>(log: seq<Trial<C>>, candidate: C, count: int) {
    exists n :: 0 <= n <= |log| && Confirmed(log[..n], candidate, count)
  }

  lemma BudgetLeft(calls: nat, count: nat, trials: nat, i: nat, maximum: int)
    requires trials <= calls * count && i < count
    ensures (calls + 1) * count <= maximum ==> trials + i < maximum
  {
  }

  /** The clock, when read for the k-th time, is past the limit; the zeroth reading is the start. */
  ghost predicate Late<C>(world: World<C>, limits: ReductionLimits, k: nat) {
    world.clock(k) - world.clock(0) >= limits.maximumSeconds
  }

  ghost predicate TimeUp<C>(world: World<C>, limits: ReductionLimits) {
    exists k :: Late(world, limits, k)
  }

  /** Every trial of the log was started right after a reading of the clock inside the limit, one reading for each. */
  ghost predicate StartedInTime<C>(world: World<C>, limits: ReductionLimits, log: seq<Trial<C>>, starts: seq<nat>) {
    && |starts| == |log|
    && (forall i :: 0 <= i < |starts| ==> 0 < starts[i] && !Late(world, limits, starts[i]))
    && forall i, j :: 0 <= i < j < |starts| ==> starts[i] < starts[j]
  }

  /** Among the readings so far, each either started a trial or was late, and a late one spent the budget. */
  ghost predicate ReadingsSettled<C>(world: World<C>, limits: ReductionLimits, readings: nat, starts: seq<nat>,
                                     exhausted: bool) {
    && (forall k :: 0 < k < readings ==> (k in starts <==> !Late(world, limits, k)))
    && (forall k :: k in starts ==> 0 < k < readings)
    && (forall k :: 0 < k < readings && Late(world, limits, k) ==> exhausted)
  }

  /** Every logged outcome is what the world answered at that trial. */
  ghost predicate Faithful<C(!new)>(world: World<C>, log: seq<Trial<C>>) {
    forall i :: 0 <= i < |log| ==> log[i].outcome == world.answer(i, log[i].candidate)
  }

  ghost function InconclusiveCount<C>(log: seq<Trial<C>>): nat {
    if log == [] then 0
    else InconclusiveCount(log[..|log| - 1]) + if log[|log| - 1].outcome.Inconclusive? then 1 else 0
  }

  lemma AppendTrial<C(!new)>(world: World<C>, log: seq<Trial<C>>, candidate: C)
    requires Faithful(world, log)
    ensures var outcome := world.answer(|log|, candidate);
            && Faithful(world, log + [Trial(candidate, outcome)])
            && InconclusiveCount(log + [Trial(candidate, outcome)])
               == InconclusiveCount(log) + if outcome.Inconclusive? then 1 else 0
  {
    var longer := log + [Trial(candidate, world.answer(|log|, candidate))];
    assert longer[..|longer| - 1] == log;
    assert InconclusiveCount(longer)
           == InconclusiveCount(log) + if longer[|log|].outcome.Inconclusive? then 1 else 0;
    hide InconclusiveCount;
  }

  lemma OneMoreCall(calls: nat, count: nat, trials: nat, more: nat)
    requires trials <= calls * count && more <= trials + count
    ensures more <= (calls + 1) * count
  {
  }

  lemma ConfirmationSurvives<C>(log: seq<Trial<C>>, longer: seq<Trial<C>>, candidate: C, count: int)
    requires log <= longer && Confirmed(log, candidate, count)
    ensures ConfirmedEarlier(longer, candidate, count)
  {
    assert longer[..|log|] == log;
  }

  lemma ConfirmedAtTheEnd<C>(log: seq<Trial<C>>, candidate: C, count: int)
    requires Confirmed(log, candidate, count)
    ensures ConfirmedEarlier(log, candidate, count)
  {
    ConfirmationSurvives(log, log, candidate, count);
  }

  lemma ConfirmedEarlierSurvives<C>(log: seq<Trial<C>>, longer: seq<Trial<C>>, candidate: C, count: int)
    requires log <= longer && ConfirmedEarlier(log, candidate, count)
    ensures ConfirmedEarlier(longer, candidate, count)
  {
    var n :| 0 <= n <= |log| && Confirmed(log[..n], candidate, count);
    assert longer[..n] == log[..n];
  }

  /** The books of an evaluator: its log tells what the world answered, its count the inconclusive trials, and its
      readings of the clock what they led to. */
  ghost predicate Kept<C(!new)>(world: World<C>, limits: ReductionLimits, log: seq<Trial<C>>, starts: seq<nat>,
                                readings: nat, inconclusive: nat, exhausted: bool) {
    && Faithful(world, log) && inconclusive == InconclusiveCount(log)
    && StartedInTime(world, limits, log, starts)
    && ReadingsSettled(world, limits, readings, starts, exhausted)
  }

  lemma NothingKept<C(!new)>(world: World<C>, limits: ReductionLimits)
    ensures Kept(world, limits, [], [], 1, 0, false)
  {
  }

  /** A trial started at a reading inside the limit. */
  lemma KeepTrial<C(!new)>(world: World<C>, limits: ReductionLimits, log: seq<Trial<C>>, starts: seq<nat>,
                           readings: nat, inconclusive: nat, exhausted: bool, candidate: C)
    requires Kept(world, limits, log, starts, readings, inconclusive, exhausted)
    requires 0 < readings && !Late(world, limits, readings)
    ensures var trial := Trial(candidate, world.answer(|log|, candidate));
            Kept(world, limits, log + [trial], starts + [readings], readings + 1,
                 inconclusive + (if trial.outcome.Inconclusive? then 1 else 0), exhausted)
  {
    hide InconclusiveCount, Faithful;
    AppendTrial(world, log, candidate);
    forall i | 0 <= i < |starts| ensures starts[i] < readings {
      assert starts[i] in starts;
    }
  }

  /** A late reading starts nothing and spends the budget; a spent budget needs no reading. */
  lemma KeepSpent<C(!new)>(world: World<C>, limits: ReductionLimits, log: seq<Trial<C>>, starts: seq<nat>,
                           readings: nat, inconclusive: nat, exhausted: bool)
    requires Kept(world, limits, log, starts, readings, inconclusive, exhausted)
    ensures Kept(world, limits, log, starts, readings, inconclusive, true)
    ensures Late(world, limits, readings) ==> Kept(world, limits, log, starts, readings + 1, inconclusive, true)
  {
    hide InconclusiveCount, Faithful;
  }

  lemma RememberTimeUp<C>(world: World<C>, limits: ReductionLimits)
    ensures forall k :: Late(world, limits, k) ==> TimeUp(world, limits)
    ensures ClockInside(world, limits) ==> !TimeUp(world, limits)
  {
  }

  /** Nothing in the trials since then kept a confirmation from going on. */
  ghost predicate WantedMore<C>(before: seq<Trial<C>>, log: seq<Trial<C>>) {
    |log| <= |before| || log[|log| - 1].outcome.Reproduced?
  }

  class ConfirmedEvaluator<C(==,!new)> {
    const world: World<C>
    const limits: ReductionLimits
    var trials: nat
    var inconclusiveTrials: nat
    var exhausted: bool
    var clockReads: nat
    ghost var log: seq<Trial<C>>
    ghost var starts: seq<nat>
    ghost var calls: nat

    ghost predicate Valid()
      reads this
    {
      && LimitsAccepted(limits)
      && trials == |log| <= limits.maximumTrials && 0 < clockReads
      && trials <= calls * limits.confirmationCount
      && (exhausted ==> trials == limits.maximumTrials || TimeUp(world, limits))
      && Kept(world, limits, log, starts, clockReads, inconclusiveTrials, exhausted)
    }

    constructor (world: World<C>, limits: ReductionLimits)
      requires LimitsAccepted(limits)
      ensures Valid() && this.world == world && this.limits == limits
      ensures trials == 0 && inconclusiveTrials == 0 && !exhausted && log == [] && calls == 0
    {
      this.world := world;
      this.limits := limits;
      trials, inconclusiveTrials, exhausted, clockReads := 0, 0, false, 1;
      log, starts, calls := [], [], 0;
      NothingKept(world, limits);
    }

    /** One trial, unless the trials are used up or the clock, read right before it, is past the limit. */
    method TryOnce(candidate: C) returns (outcome: Option<TrialOutcome>)
      requires trials == |log| <= limits.maximumTrials && 0 < clockReads
      requires Kept(world, limits, log, starts, clockReads, inconclusiveTrials, exhausted)
      modifies this
      ensures trials == |log| <= limits.maximumTrials && calls == old(calls)
      ensures Kept(world, limits, log, starts, clockReads, inconclusiveTrials, exhausted)
      ensures old(starts) <= starts && old(clockReads) <= clockReads && 0 < clockReads
      ensures outcome.Some? ==> log == old(log) + [Trial(candidate, outcome.value)] && exhausted == old(exhausted)
      ensures outcome.None? ==> log == old(log) && exhausted
      ensures outcome.None? ==> trials == limits.maximumTrials || Late(world, limits, clockReads - 1)
    {
      hide Kept;
      KeepSpent(world, limits, log, starts, clockReads, inconclusiveTrials, exhausted);
      var spent := trials >= limits.maximumTrials;
      ghost var reading := clockReads;
      if !spent {
        spent := world.clock(clockReads) - world.clock(0) >= limits.maximumSeconds;
        clockReads := clockReads + 1;
      }
      if spent {
        exhausted := true;
        return None;
      }
      var answer := world.answer(trials, candidate);
      KeepTrial(world, limits, log, starts, reading, inconclusiveTrials, exhausted, candidate);
      starts := starts + [reading];
      trials := trials + 1;
      log := log + [Trial(candidate, answer)];
      if answer.Inconclusive? {
        inconclusiveTrials := inconclusiveTrials + 1;
      }
      return Some(answer);
    }

    /** Require the same reproduced outcome repeatedly; stop at the first other outcome or at a budget. */
    method Confirms(candidate: C) returns (confirmed: bool)
      requires Valid()
      modifies this
      ensures Valid() && calls == old(calls) + 1 && old(log) <= log
      ensures forall k :: |old(log)| <= k < |log| ==> log[k].candidate == candidate
      ensures confirmed ==> Confirmed(log, candidate, limits.confirmationCount) && exhausted == old(exhausted)
      ensures confirmed ==> |log| == |old(log)| + limits.confirmationCount
      ensures !confirmed ==> exhausted || (|old(log)| < |log| && !log[|log| - 1].outcome.Reproduced?)
      ensures exhausted <==> old(exhausted) || (!confirmed && WantedMore(old(log), log))
      ensures !confirmed && WantedMore(old(log), log) ==>
                trials == limits.maximumTrials || Late(world, limits, clockReads - 1)
      ensures old(starts) <= starts && old(clockReads) <= clockReads
      ensures ClockInside(world, limits) && (old(calls) + 1) * limits.confirmationCount <= limits.maximumTrials ==>
                exhausted == old(exhausted)
    {
      hide Kept, Late;
      RememberTimeUp(world, limits);
      hide TimeUp, ClockInside;
      confirmed := true;
      var i := 0;
      while i < limits.confirmationCount
        invariant 0 <= i <= limits.confirmationCount
        invariant trials == |log| <= limits.maximumTrials
        invariant Kept(world, limits, log, starts, clockReads, inconclusiveTrials, exhausted)
        invariant exhausted == old(exhausted) && calls == old(calls)
        invariant 0 < clockReads && old(clockReads) <= clockReads && old(starts) <= starts
        invariant old(log) <= log && |log| == |old(log)| + i
        invariant forall k :: |old(log)| <= k < |log| ==> log[k] == Trial(candidate, Reproduced)
      {
        OneMoreCall(calls, limits.confirmationCount, |old(log)|, |log| + 1);
        BudgetLeft(calls, limits.confirmationCount, |old(log)|, i, limits.maximumTrials);
        var outcome := TryOnce(candidate);
        if outcome != Some(Reproduced) {
          calls := calls + 1;
          return false;
        }
        i := i + 1;
      }
      OneMoreCall(calls, limits.confirmationCount, |old(log)|, |log|);
      calls := calls + 1;
    }
  }
}
