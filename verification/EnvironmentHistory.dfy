/** The search for the first environment that fails after one that passes. */
module EnvironmentHistory {
  import opened Results
  import opened Reduction

  datatype BoundaryError = InvalidHistory | InconclusiveTrial | BudgetExhausted | NoBoundary

  datatype EnvironmentBoundary<E> = EnvironmentBoundary(lastPassing: E, firstFailing: E, trials: nat,
                                                        inconclusiveTrials: nat)

  predicate AllDistinct<E(==)>(history: seq<E>) {
    forall i, j :: 0 <= i < j < |history| ==> history[i] != history[j]
  }

  predicate AcceptedHistory<E(==)>(history: seq<E>) {
    2 <= |history| && AllDistinct(history)
  }

  /** Environment `i` is the first one that fails right after one that passes. */
  ghost predicate IsFirstBoundary(states: seq<bool>, i: nat) {
    && 0 < i < |states| && !states[i - 1] && states[i]
    && forall j :: 0 < j < i ==> states[j - 1] || !states[j]
  }

  /** Some passing environment precedes a failing one, not necessarily next to it. */
  ghost predicate PassesBeforeFailing(states: seq<bool>) {
    exists i, j :: 0 <= i < j < |states| && !states[i] && states[j]
  }

  /** Once nothing changes from passing to failing next to each other, nothing does at any distance. */
  lemma {:induction false} StaysPassing(states: seq<bool>, i: nat, j: nat)
    requires i <= j < |states| && !states[i]
    requires forall k :: 0 < k < |states| ==> states[k - 1] || !states[k]
    ensures !states[j]
  {
    if i < j { StaysPassing(states, i, j - 1); }
  }

  /** A passing environment precedes a failing one exactly when some adjacent pair does. */
  lemma AdjacentOrNever(states: seq<bool>)
    ensures PassesBeforeFailing(states) <==> exists k :: 0 < k < |states| && !states[k - 1] && states[k]
  {
    if i, j :| 0 <= i < j < |states| && !states[i] && states[j] {
      if forall k :: 0 < k < |states| ==> states[k - 1] || !states[k] { StaysPassing(states, i, j); }
    }
    if k :| 0 < k < |states| && !states[k - 1] && states[k] {
      assert 0 <= k - 1 < k < |states|;
    }
  }

  /** What each environment answers in a deterministic world. */
  ghost function Answers<E(!new)>(world: World<E>, history: seq<E>): (states: seq<bool>)
    ensures |states| == |history|
  {
    seq(|history|, i requires 0 <= i < |history| => world.answer(0, history[i]).Reproduced?)
  }

  /** The states recorded so far are what the deterministic world answers. */
  ghost predicate Recorded<E(!new)>(world: World<E>, history: seq<E>, states: seq<bool>) {
    && |states| <= |history|
    && (Deterministic(world) ==> states == Answers(world, history)[..|states|])
  }

  lemma RecordNext<E(!new)>(world: World<E>, history: seq<E>, states: seq<bool>, log: seq<Trial<E>>, confirmed: bool,
                            count: int)
    requires Recorded(world, history, states) && |states| < |history| && Faithful(world, log) && 0 < |log| && 0 < count
    requires confirmed ==> Confirmed(log, history[|states|], count)
    requires !confirmed ==> !log[|log| - 1].outcome.Reproduced? && log[|log| - 1].candidate == history[|states|]
    ensures Recorded(world, history, states + [confirmed])
  {
    if Deterministic(world) {
      var last := log[|log| - 1];
      assert last.outcome == world.answer(|log| - 1, last.candidate) == world.answer(0, last.candidate);
      assert Answers(world, history)[..|states| + 1] == states + [Answers(world, history)[|states|]];
    }
  }

  /** Some trial of an environment ran and did not reproduce the failure. */
  ghost predicate Refuted<E>(log: seq<Trial<E>>, environment: E) {
    exists n :: 0 <= n < |log| && log[n] == Trial(environment, NotReproduced)
  }

  /** The states of the first environments as the log shows them: one fails exactly when no trial of it passed, and
      then it was confirmed to fail. Only these environments ran. */
  ghost predicate Observed<E>(log: seq<Trial<E>>, history: seq<E>, states: seq<bool>, count: int) {
    && |states| <= |history|
    && (forall n :: 0 <= n < |log| ==> log[n].candidate in history[..|states|])
    && (forall k :: 0 <= k < |states| && states[k] ==> ConfirmedEarlier(log, history[k], count))
    && (forall k :: 0 <= k < |states| ==> (states[k] <==> !Refuted(log, history[k])))
  }

  lemma NothingObserved<E>(history: seq<E>, count: int)
    ensures Observed([], history, [], count)
  {
  }

  /** The trials of one more environment settle its state and leave the states before it alone. */
  lemma ObserveNext<E>(log: seq<Trial<E>>, longer: seq<Trial<E>>, history: seq<E>, states: seq<bool>, confirmed: bool,
                       count: int)
    requires Observed(log, history, states, count) && |states| < |history| && AllDistinct(history) && log <= longer
    requires forall n :: |log| <= n < |longer| ==> longer[n].candidate == history[|states|]
    requires confirmed ==> Confirmed(longer, history[|states|], count) && |longer| == |log| + count
    requires !confirmed ==> |log| < |longer| && longer[|longer| - 1].outcome.NotReproduced?
    ensures Observed(longer, history, states + [confirmed], count)
  {
    var next := history[|states|];
    assert next !in history[..|states|];
    assert history[..|states| + 1] == history[..|states|] + [next];
    forall k | 0 <= k < |states|
      ensures states[k] ==> ConfirmedEarlier(longer, history[k], count)
      ensures Refuted(longer, history[k]) <==> Refuted(log, history[k])
    {
      if states[k] { ConfirmedEarlierSurvives(log, longer, history[k], count); }
      if n :| 0 <= n < |log| && log[n] == Trial(history[k], NotReproduced) {
        assert longer[n] == log[n];
      }
    }
    if confirmed { ConfirmedAtTheEnd(longer, next, count); }
    if !confirmed { assert longer[|longer| - 1] == Trial(next, NotReproduced); }
  }

  lemma NoneInconclusive<C>(log: seq<Trial<C>>)
    requires InconclusiveCount(log) == 0 && 0 < |log|
    ensures !log[|log| - 1].outcome.Inconclusive?
  {
  }

  lemma QuietLog<C(!new)>(world: World<C>, log: seq<Trial<C>>)
    requires Faithful(world, log) && Quiet(world)
    ensures InconclusiveCount(log) == 0
  {
    if log != [] {
      assert log[|log| - 1].outcome == world.answer(|log| - 1, log[|log| - 1].candidate);
      QuietLog(world, log[..|log| - 1]);
    }
  }

  lemma CallAfforded(calls: nat, total: nat, limits: ReductionLimits)
    requires calls <= total && 0 <= limits.confirmationCount
    ensures total * limits.confirmationCount <= limits.maximumTrials ==>
              calls * limits.confirmationCount <= limits.maximumTrials
  {
  }

  lemma NothingRecorded<E(!new)>(world: World<E>, history: seq<E>)
    ensures Recorded(world, history, [])
  {
  }

  lemma AllRecorded<E(!new)>(world: World<E>, history: seq<E>, states: seq<bool>)
    requires Recorded(world, history, states) && |states| == |history|
    ensures Deterministic(world) ==> states == Answers(world, history)
  {
  }

  /** The boundary a history has when every trial tells the truth and the budget suffices. */
  ghost predicate Settled<E(!new)>(world: World<E>, limits: ReductionLimits, history: seq<E>) {
    && Deterministic(world) && Quiet(world) && ClockInside(world, limits)
    && |history| * limits.confirmationCount <= limits.maximumTrials
  }

  /** The first adjacent change from passing to failing in a list of states. */
  method FirstBoundary(states: seq<bool>) returns (found: Option<nat>)
    ensures found.Some? ==> IsFirstBoundary(states, found.value)
    ensures found.None? <==> !PassesBeforeFailing(states)
  {
    AdjacentOrNever(states);
    var index := 1;
    while index < |states|
      invariant 0 < index && forall j :: 0 < j < index && j < |states| ==> states[j - 1] || !states[j]
    {
      if !states[index - 1] && states[index] {
        return Some(index);
      }
      index := index + 1;
    }
    return None;
  }

  /** Judge every environment by its trials, then look for the first one that fails right after one that passes. */
  method ReduceEnvironmentHistory<E(==,!new)>(history: seq<E>, world: World<E>, limits: ReductionLimits)
    returns (result: Result<EnvironmentBoundary<E>, BoundaryError>, ghost log: seq<Trial<E>>, ghost starts: seq<nat>,
             ghost states: seq<bool>)
    requires LimitsAccepted(limits)
    ensures result == Err(InvalidHistory)
            <==> |history| <= 1 || exists i, j :: 0 <= i < j < |history| && history[i] == history[j]
    ensures result == Err(InconclusiveTrial) ==> InconclusiveCount(log) > 0
    ensures result == Err(BudgetExhausted) ==> InconclusiveCount(log) == 0
                                               && (|log| == limits.maximumTrials || TimeUp(world, limits))
    ensures Faithful(world, log) && |log| <= limits.maximumTrials
    ensures StartedInTime(world, limits, log, starts)
    ensures result.Ok? || result == Err(NoBoundary) ==>
              |states| == |history| && InconclusiveCount(log) == 0
              && Observed(log, history, states, limits.confirmationCount)
              && (Deterministic(world) ==> states == Answers(world, history))
              && (result == Err(NoBoundary) <==> !PassesBeforeFailing(states))
    ensures result.Ok? ==>
              exists i: nat :: IsFirstBoundary(states, i) && i < |history|
                          && result.value == EnvironmentBoundary(history[i - 1], history[i], |log|, 0)
    ensures result != Err(InvalidHistory) && Settled(world, limits, history) ==> result.Ok? || result == Err(NoBoundary)
  {
    hide Faithful, Deterministic, Quiet, ClockInside, InconclusiveCount, Confirmed, Recorded, ConfirmedEarlier, TimeUp,
         Observed, StartedInTime, ReadingsSettled;
    log, starts, states := [], [], [];
    NothingKept(world, limits);
    if !AcceptedHistory(history) {
      return Err(InvalidHistory), log, starts, states;
    }
    var evaluator := new ConfirmedEvaluator(world, limits);
    var judged: seq<bool> := [];
    NothingRecorded(world, history);
    NothingObserved(history, limits.confirmationCount);
    for index := 0 to |history|
      invariant evaluator.Valid() && evaluator.world == world && evaluator.limits == limits
      invariant |judged| == index == evaluator.calls && Recorded(world, history, judged)
      invariant evaluator.inconclusiveTrials == 0 && !evaluator.exhausted
      invariant Observed(evaluator.log, history, judged, limits.confirmationCount)
    {
      CallAfforded(index + 1, |history|, limits);
      ghost var before := evaluator.log;
      var reproduced := evaluator.Confirms(history[index]);
      log, starts := evaluator.log, evaluator.starts;
      if Quiet(world) { QuietLog(world, log); }
      if evaluator.inconclusiveTrials > 0 {
        return Err(InconclusiveTrial), log, starts, states;
      }
      if evaluator.exhausted {
        return Err(BudgetExhausted), log, starts, states;
      }
      if 0 < |log| { NoneInconclusive(log); }
      RecordNext(world, history, judged, log, reproduced, limits.confirmationCount);
      ObserveNext(before, log, history, judged, reproduced, limits.confirmationCount);
      judged := judged + [reproduced];
    }
    log, starts, states := evaluator.log, evaluator.starts, judged;
    AllRecorded(world, history, judged);
    var found := FirstBoundary(judged);
    match found
    case None => result := Err(NoBoundary);
    case Some(index) =>
      result := Ok(EnvironmentBoundary(history[index - 1], history[index], evaluator.trials,
                                       evaluator.inconclusiveTrials));
  }
}
