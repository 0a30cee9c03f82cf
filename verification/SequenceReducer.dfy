/** Delta debugging of a sequence under a confirmed, budgeted predicate. */
module SequenceReducer {
  import opened Results
  import opened Reduction

  // ---------------------------------------------------------------- subsequences

  /** `idx` picks the elements of `a` out of `b`, in order. */
  ghost predicate Picks<T>(idx: seq<nat>, a: seq<T>, b: seq<T>) {
    && |idx| == |a|
    && (forall i, j :: 0 <= i < j < |idx| ==> idx[i] < idx[j])
    && (forall i :: 0 <= i < |idx| ==> idx[i] < |b| && a[i] == b[idx[i]])
  }

  /** `a` is `b` with some elements left out, the others in their order. */
  ghost predicate Subsequence<T>(a: seq<T>, b: seq<T>) {
    exists idx :: Picks(idx, a, b)
  }

  lemma SubsequenceReflexive<T>(a: seq<T>)
    ensures Subsequence(a, a)
  {
    assert Picks(seq(|a|, i => i), a, a);
  }

  lemma SubsequenceTransitive<T>(a: seq<T>, b: seq<T>, c: seq<T>)
    requires Subsequence(a, b) && Subsequence(b, c)
    ensures Subsequence(a, c)
  {
    var inner :| Picks(inner, a, b);
    var outer :| Picks(outer, b, c);
    var idx := seq(|inner|, i requires 0 <= i < |inner| => outer[inner[i]]);
    assert Picks(idx, a, c);
  }

  /** The sequence without the chunk of `size` elements at `start`. */
  function Without<T>(s: seq<T>, start: nat, size: nat): (rest: seq<T>)
    requires start <= |s|
    ensures start < |s| && 0 < size ==> |rest| < |s|
  {
    s[..start] + if start + size <= |s| then s[start + size..] else []
  }

  /** Before the chunk the elements stand where they stood, after it the chunk's length further to the front. */
  lemma WithoutMeans<T>(s: seq<T>, start: nat, size: nat)
    requires start <= |s|
    ensures |Without(s, start, size)| == if start + size <= |s| then |s| - size else start
    ensures forall i :: 0 <= i < start ==> Without(s, start, size)[i] == s[i]
    ensures forall i :: start <= i < |Without(s, start, size)| ==>
              i + size < |s| && Without(s, start, size)[i] == s[i + size]
  {
  }

  lemma WithoutIsSubsequence<T>(s: seq<T>, start: nat, size: nat)
    requires start <= |s|
    ensures Subsequence(Without(s, start, size), s)
  {
    var rest := Without(s, start, size);
    var idx := seq(|rest|, i requires 0 <= i < |rest| => if i < start then i else i + size);
    assert Picks(idx, rest, s);
  }

  // ---------------------------------------------------------------- counting calls

  /** Three times the sum of all lengths up to `n`. */
  function Triangle(n: nat): nat {
    if n == 0 then 0 else 3 * n + Triangle(n - 1)
  }

  lemma {:induction false} TriangleFormula(n: nat)
    ensures 2 * Triangle(n) == 3 * n * (n + 1)
  {
    if n > 0 { TriangleFormula(n - 1); }
  }

  lemma {:induction false} TriangleBelowQuadratic(n: nat)
    ensures Triangle(n) <= n * (3 * n + 1)
  {
    if n > 0 {
      TriangleBelowQuadratic(n - 1);
      QuadraticStep(n);
    }
  }

  lemma QuadraticStep(n: int)
    ensures (n - 1) * (3 * (n - 1) + 1) == n * (3 * n + 1) - 6 * n + 2
  {
  }

  lemma {:induction false} TriangleGrows(m: nat, n: nat)
    requires m <= n
    ensures Triangle(m) <= Triangle(n)
  {
    if m < n { TriangleGrows(m, n - 1); }
  }

  /** Calls that may still be made with `length` elements left at a granularity. */
  function Remaining(length: nat, granularity: nat): int {
    if length == 0 then 0
    else Triangle(length - 1) + if granularity < length then 3 * length - granularity else length
  }

  lemma RemainingBound(length: nat, granularity: nat)
    requires 2 <= granularity
    ensures Remaining(length, granularity) <= Triangle(length)
  {
  }

  lemma PassCosts(length: nat, granularity: nat)
    requires 0 < length && 2 <= granularity
    ensures Min(granularity, length) <= Remaining(length, granularity)
  {
  }

  lemma ShorterCostsLess(length: nat, granularity: nat, shorter: nat, next: nat)
    requires shorter < length && 2 <= granularity && 2 <= next
    ensures Min(granularity, length) + Remaining(shorter, next) <= Remaining(length, granularity)
  {
    RemainingBound(shorter, next);
    TriangleGrows(shorter, length - 1);
  }

  lemma FinerCostsLess(length: nat, granularity: nat)
    requires 2 <= granularity < length
    ensures Min(granularity, length) + Remaining(length, Min(length, granularity * 2)) <= Remaining(length, granularity)
  {
  }

  function Min(a: int, b: int): int {
    if a < b then a else b
  }

  function Max(a: int, b: int): int {
    if a < b then b else a
  }

  /** The chunk size at a granularity: the ceiling of length over granularity, at least one. */
  function ChunkSize(length: nat, granularity: nat): (size: nat)
    requires 0 < granularity
    ensures 1 <= size
  {
    Max(1, (length + granularity - 1) / granularity)
  }

  /** The smallest size at which `granularity` chunks cover the sequence. */
  lemma ChunkSizeMeans(length: nat, granularity: nat, size: nat)
    requires 0 < length && 0 < granularity
    ensures size == ChunkSize(length, granularity) <==> length <= granularity * size < length + granularity
  {
    var chunk := ChunkSize(length, granularity);
    var quotient := (length + granularity - 1) / granularity;
    assert granularity * quotient <= length + granularity - 1 < granularity * quotient + granularity;
    QuotientPositive(length + granularity - 1, granularity);
    if size < chunk { MultiplyMonotone(granularity, size, chunk - 1); }
    if chunk < size { MultiplyMonotone(granularity, chunk, size - 1); }
  }

  lemma QuotientPositive(a: nat, b: nat)
    requires 0 < b <= a
    ensures 1 <= a / b
  {
  }

  /** There are no more chunks than the granularity asks for. */
  lemma ChunkCount(length: nat, granularity: nat, k: nat)
    requires 0 < granularity
    ensures k * ChunkSize(length, granularity) < length ==> k < Min(granularity, length)
  {
    var size := ChunkSize(length, granularity);
    var quotient := (length + granularity - 1) / granularity;
    assert granularity * quotient >= length;
    assert granularity * size >= length by {
      assert size >= quotient;
      MultiplyMonotone(granularity, quotient, size);
    }
    if k >= granularity {
      MultiplyMonotone(size, granularity, k);
    }
    MultiplyMonotone(k, 1, size);
  }

  lemma MultiplyMonotone(factor: nat, a: nat, b: nat)
    requires a <= b
    ensures factor * a <= factor * b
  {
  }

  // ---------------------------------------------------------------- one pass

  /** In a deterministic world, the answer every trial of a candidate gives. */
  ghost predicate Reproduces<C(!new)>(world: World<C>, candidate: C) {
    world.answer(0, candidate).Reproduced?
  }

  /** None of the first `count` chunks can be left out: what remains is too short or does not reproduce. */
  ghost predicate ChunksStay<T(!new)>(world: World<seq<T>>, current: seq<T>, size: nat, minimum: nat, count: nat) {
    forall k: nat :: k < count && Start(k, size) < |current| ==> ChunkStays(world, current, size, minimum, k)
  }

  ghost predicate ChunkStays<T(!new)>(world: World<seq<T>>, current: seq<T>, size: nat, minimum: nat, k: nat)
    requires Start(k, size) < |current|
  {
    var rest := Without(current, Start(k, size), size);
    |rest| < minimum || !Reproduces(world, rest)
  }

  function Start(k: nat, size: nat): nat {
    k * size
  }

  /** Some logged trial of the candidate did not reproduce. */
  ghost predicate Rejected<C>(log: seq<Trial<C>>, candidate: C) {
    exists n :: 0 <= n < |log| && log[n].candidate == candidate && !log[n].outcome.Reproduced?
  }

  /** The chunk was not left out: what remains is too short, or the log shows a trial of it that did not reproduce. */
  ghost predicate ChunkRefused<T>(log: seq<Trial<seq<T>>>, current: seq<T>, size: nat, minimum: nat, k: nat)
    requires Start(k, size) < |current|
  {
    var rest := Without(current, Start(k, size), size);
    |rest| < minimum || Rejected(log, rest)
  }

  /** So were the first `count` chunks. */
  ghost predicate ChunksRefused<T>(log: seq<Trial<seq<T>>>, current: seq<T>, size: nat, minimum: nat, count: nat) {
    forall k: nat :: k < count && Start(k, size) < |current| ==> ChunkRefused(log, current, size, minimum, k)
  }

  lemma NoChunksRefused<T>(log: seq<Trial<seq<T>>>, current: seq<T>, size: nat, minimum: nat)
    ensures ChunksRefused(log, current, size, minimum, 0)
  {
  }

  lemma RejectedSurvives<C>(log: seq<Trial<C>>, longer: seq<Trial<C>>, candidate: C)
    requires log <= longer && Rejected(log, candidate)
    ensures Rejected(longer, candidate)
  {
    var n :| 0 <= n < |log| && log[n].candidate == candidate && !log[n].outcome.Reproduced?;
    assert longer[n] == log[n];
  }

  lemma RefusedSurvives<T>(log: seq<Trial<seq<T>>>, longer: seq<Trial<seq<T>>>, current: seq<T>, size: nat,
                           minimum: nat, count: nat)
    requires log <= longer && ChunksRefused(log, current, size, minimum, count)
    ensures ChunksRefused(longer, current, size, minimum, count)
  {
    hide Rejected, Without, Start;
    forall k: nat | k < count && Start(k, size) < |current|
      ensures ChunkRefused(longer, current, size, minimum, k)
    {
      assert ChunkRefused(log, current, size, minimum, k);
      var rest := Without(current, Start(k, size), size);
      if Rejected(log, rest) { RejectedSurvives(log, longer, rest); }
    }
  }

  lemma OneMoreRefused<T>(log: seq<Trial<seq<T>>>, current: seq<T>, size: nat, minimum: nat, count: nat)
    requires ChunksRefused(log, current, size, minimum, count)
    requires Start(count, size) < |current| ==> ChunkRefused(log, current, size, minimum, count)
    ensures ChunksRefused(log, current, size, minimum, count + 1)
  {
  }

  lemma AllRefused<T>(log: seq<Trial<seq<T>>>, current: seq<T>, size: nat, minimum: nat, count: nat)
    requires ChunksRefused(log, current, size, minimum, count) && |current| <= Start(count, size)
    ensures ChunksRefused(log, current, size, minimum, |current|)
  {
    hide ChunkRefused;
    forall k: nat | k < |current| && Start(k, size) < |current|
      ensures ChunkRefused(log, current, size, minimum, k)
    {
      if count <= k { MultiplyMonotone(size, count, k); }
    }
  }

  /** In a deterministic world what was refused does not reproduce. */
  lemma RefusedStay<T(!new)>(world: World<seq<T>>, log: seq<Trial<seq<T>>>, current: seq<T>, size: nat, minimum: nat,
                             count: nat)
    requires Faithful(world, log) && Deterministic(world) && ChunksRefused(log, current, size, minimum, count)
    ensures ChunksStay(world, current, size, minimum, count)
  {
    hide Without, Start;
    forall k: nat | k < count && Start(k, size) < |current|
      ensures ChunkStays(world, current, size, minimum, k)
    {
      assert ChunkRefused(log, current, size, minimum, k);
      var rest := Without(current, Start(k, size), size);
      if n :| 0 <= n < |log| && log[n].candidate == rest && !log[n].outcome.Reproduced? {
        assert log[n].outcome == world.answer(n, rest) == world.answer(0, rest);
      }
    }
  }

  /** The trial budget covers this many confirmation calls. */
  ghost predicate Affords(limits: ReductionLimits, calls: nat) {
    calls * limits.confirmationCount <= limits.maximumTrials
  }

  lemma FewerCallsAfforded(limits: ReductionLimits, calls: nat, more: nat)
    requires calls <= more && 0 <= limits.confirmationCount && Affords(limits, more)
    ensures Affords(limits, calls)
  {
  }

  /** Try to leave out one chunk after the other; stop at the first confirmed candidate. */
  method TryChunks<T(==,!new)>(evaluator: ConfirmedEvaluator<seq<T>>, current: seq<T>, granularity: nat, minimum: nat)
    returns (changed: bool, next: seq<T>)
    requires evaluator.Valid() && 2 <= granularity && minimum < |current| && !evaluator.exhausted
    modifies evaluator
    ensures evaluator.Valid() && old(evaluator.log) <= evaluator.log
    ensures evaluator.calls <= old(evaluator.calls) + Min(granularity, |current|)
    ensures ClockInside(evaluator.world, evaluator.limits)
            && Affords(evaluator.limits, old(evaluator.calls) + Min(granularity, |current|)) ==>
              !evaluator.exhausted
    ensures changed ==>
              && Subsequence(next, current) && minimum <= |next| < |current|
              && Confirmed(evaluator.log, next, evaluator.limits.confirmationCount)
              && !evaluator.exhausted
    ensures !changed ==> next == current
    ensures changed ==>
              var size := ChunkSize(|current|, granularity);
              exists k: nat :: Start(k, size) < |current| && next == Without(current, Start(k, size), size)
                               && ChunksRefused(evaluator.log, current, size, minimum, k)
    ensures !changed && !evaluator.exhausted ==>
              ChunksRefused(evaluator.log, current, ChunkSize(|current|, granularity), minimum, |current|)
  {
    hide Subsequence, Faithful, Deterministic, Confirmed, ClockInside, ChunksRefused, ChunkRefused, Without, ChunkSize,
         Reproduces, InconclusiveCount, Affords, TimeUp;
    changed, next := false, current;
    var size := ChunkSize(|current|, granularity);
    var start := 0;
    ghost var k: nat := 0;
    NoChunksRefused(evaluator.log, current, size, minimum);
    while start < |current|
      invariant start == Start(k, size) && evaluator.Valid() && !evaluator.exhausted
      invariant old(evaluator.log) <= evaluator.log
      invariant k <= Min(granularity, |current|) && evaluator.calls <= old(evaluator.calls) + k
      invariant ChunksRefused(evaluator.log, current, size, minimum, k)
      decreases |current| - start
    {
      ChunkCount(|current|, granularity, k);
      var candidate := Without(current, start, size);
      if minimum <= |candidate| {
        if Affords(evaluator.limits, old(evaluator.calls) + Min(granularity, |current|)) {
          FewerCallsAfforded(evaluator.limits, evaluator.calls + 1, old(evaluator.calls) + Min(granularity, |current|));
        }
        ghost var before := evaluator.log;
        var confirmed := evaluator.Confirms(candidate);
        RefusedSurvives(before, evaluator.log, current, size, minimum, k);
        if confirmed {
          WithoutIsSubsequence(current, start, size);
          changed, next := true, candidate;
          return;
        }
        if evaluator.exhausted {
          return;
        }
        LastRejected(evaluator.log, candidate);
      }
      ShortOrRejected(evaluator.log, current, size, minimum, k);
      OneMoreRefused(evaluator.log, current, size, minimum, k);
      start, k := start + size, k + 1;
    }
    AllRefused(evaluator.log, current, size, minimum, k);
  }

  lemma LastRejected<C>(log: seq<Trial<C>>, candidate: C)
    requires 0 < |log| && log[|log| - 1].candidate == candidate && !log[|log| - 1].outcome.Reproduced?
    ensures Rejected(log, candidate)
  {
  }

  lemma ShortOrRejected<T>(log: seq<Trial<seq<T>>>, current: seq<T>, size: nat, minimum: nat, k: nat)
    requires Start(k, size) < |current|
    ensures var rest := Without(current, Start(k, size), size);
            |rest| < minimum || Rejected(log, rest) ==> ChunkRefused(log, current, size, minimum, k)
  {
  }

  // ---------------------------------------------------------------- the reducer

  datatype ReductionError = InvalidMinimum | NotAStableFailure

  datatype Trace = Trace(originalItems: nat, reducedItems: nat, trials: nat, inconclusiveTrials: nat,
                         budgetExhausted: bool)

  datatype SequenceReduction<T> = SequenceReduction(items: seq<T>, trace: Trace)

  /** No single element may be left out: what remains is too short or does not reproduce. */
  ghost predicate OneMinimal<T(!new)>(world: World<seq<T>>, items: seq<T>, minimum: nat) {
    forall i :: 0 <= i < |items| && minimum < |items| ==> !Reproduces(world, Without(items, i, 1))
  }

  /** Supersequences of a reproducing sequence reproduce. */
  ghost predicate Monotone<T(!new)>(world: World<seq<T>>) {
    forall a, b :: Subsequence(a, b) && Reproduces(world, a) ==> Reproduces(world, b)
  }

  lemma SinglesStay<T(!new)>(world: World<seq<T>>, current: seq<T>, minimum: nat)
    requires ChunksStay(world, current, 1, minimum, |current|)
    ensures OneMinimal(world, current, minimum)
  {
    forall i | 0 <= i < |current| && minimum < |current|
      ensures !Reproduces(world, Without(current, i, 1))
    {
      assert Start(i, 1) == i;
      assert ChunkStays(world, current, 1, minimum, i);
    }
  }

  lemma SingleChunks(length: nat, granularity: nat)
    requires 0 < length <= granularity
    ensures ChunkSize(length, granularity) == 1
  {
    var quotient := (length + granularity - 1) / granularity;
    assert granularity * quotient <= length + granularity - 1;
    if 2 <= quotient { MultiplyMonotone(granularity, 2, quotient); }
  }

  /** A proper subsequence survives the removal of some single element. */
  lemma ProperSubsequenceAvoids<T>(a: seq<T>, b: seq<T>) returns (i: nat)
    requires Subsequence(a, b) && |a| < |b|
    ensures i < |b| && Subsequence(a, Without(b, i, 1))
  {
    var idx :| Picks(idx, a, b);
    i := FirstGap(idx, |b|);
    var shifted := seq(|idx|, k requires 0 <= k < |idx| => if k < i then idx[k] else idx[k] - 1);
    assert Picks(shifted, a, Without(b, i, 1));
  }

  /** The first index a strictly increasing list of indices jumps over. */
  lemma FirstGap(idx: seq<nat>, bound: nat) returns (gap: nat)
    requires |idx| < bound && forall i, j :: 0 <= i < j < |idx| ==> idx[i] < idx[j]
    requires forall i :: 0 <= i < |idx| ==> idx[i] < bound
    ensures gap < bound
    ensures forall k :: 0 <= k < |idx| ==> if k < gap then idx[k] < gap else gap < idx[k]
  {
    gap := 0;
    while gap < |idx| && idx[gap] == gap
      invariant gap <= |idx| && forall k :: 0 <= k < gap ==> idx[k] == k
    {
      gap := gap + 1;
    }
    if gap < |idx| {
      assert gap == 0 || idx[gap - 1] == gap - 1;
      assert gap < idx[gap];
    }
  }

  /** When supersequences of failures fail, a one-minimal result is minimal outright. */
  lemma OneMinimalIsMinimal<T(!new)>(world: World<seq<T>>, items: seq<T>, minimum: nat, smaller: seq<T>)
    requires Monotone(world) && OneMinimal(world, items, minimum)
    requires Subsequence(smaller, items) && minimum <= |smaller| < |items|
    ensures !Reproduces(world, smaller)
  {
    var i := ProperSubsequenceAvoids(smaller, items);
    assert !Reproduces(world, Without(items, i, 1));
  }

  /** In a deterministic world with the clock inside its limit, the first confirmation decides correctly. */
  lemma FirstConfirmationDecides<C(!new)>(evaluator: ConfirmedEvaluator<C>, candidate: C, confirmed: bool)
    requires evaluator.Valid() && Deterministic(evaluator.world)
    requires confirmed ==> Confirmed(evaluator.log, candidate, evaluator.limits.confirmationCount)
    requires !confirmed ==> 0 < |evaluator.log| && !evaluator.log[|evaluator.log| - 1].outcome.Reproduced?
                            && evaluator.log[|evaluator.log| - 1].candidate == candidate
    ensures confirmed <==> Reproduces(evaluator.world, candidate)
  {
    assert 0 < |evaluator.log|;
    assert evaluator.log[|evaluator.log| - 1].outcome == evaluator.world.answer(|evaluator.log| - 1, candidate);
  }

  /** Where the search stands: what is left, and into how many chunks it is cut. */
  datatype Pass<T> = Pass(items: seq<T>, granularity: nat)

  /** The pass left out the first chunk that was confirmed, and goes on a little coarser. */
  ghost predicate Shrinks<T>(log: seq<Trial<seq<T>>>, count: int, minimum: nat, a: Pass<T>, b: Pass<T>) {
    && 0 < a.granularity
    && (var size := ChunkSize(|a.items|, a.granularity);
        exists k: nat :: Start(k, size) < |a.items| && b.items == Without(a.items, Start(k, size), size)
                         && ChunksRefused(log, a.items, size, minimum, k))
    && minimum <= |b.items| && ConfirmedEarlier(log, b.items, count)
    && b.granularity == (if a.granularity <= 2 then 2 else a.granularity - 1)
  }

  /** No chunk could be left out; the next pass cuts twice as many, at most into single elements. */
  ghost predicate Refines<T>(log: seq<Trial<seq<T>>>, minimum: nat, a: Pass<T>, b: Pass<T>) {
    && 0 < a.granularity < |a.items| && b.items == a.items
    && ChunksRefused(log, a.items, ChunkSize(|a.items|, a.granularity), minimum, |a.items|)
    && b.granularity == (if 2 * a.granularity <= |a.items| then 2 * a.granularity else |a.items|)
  }

  /** The passes of a search, each following from the one before as the log shows. */
  ghost predicate Scheduled<T>(log: seq<Trial<seq<T>>>, count: int, minimum: nat, items: seq<T>, passes: seq<Pass<T>>) {
    && passes != [] && passes[0] == Pass(items, 2)
    && forall i, j :: 0 <= i < |passes| && j == i + 1 < |passes| ==>
         Shrinks(log, count, minimum, passes[i], passes[j]) || Refines(log, minimum, passes[i], passes[j])
  }

  /** The search ended: nothing more may be left out, or no single element could be, or the budget was spent. */
  ghost predicate Ended<T>(log: seq<Trial<seq<T>>>, minimum: nat, exhausted: bool, last: Pass<T>) {
    || exhausted || |last.items| <= minimum
    || (0 < |last.items| <= last.granularity && ChunksRefused(log, last.items, 1, minimum, |last.items|))
  }

  lemma ShrinksSurvives<T>(log: seq<Trial<seq<T>>>, longer: seq<Trial<seq<T>>>, count: int, minimum: nat, a: Pass<T>,
                           b: Pass<T>)
    requires log <= longer
    ensures Shrinks(log, count, minimum, a, b) ==> Shrinks(longer, count, minimum, a, b)
    ensures Refines(log, minimum, a, b) ==> Refines(longer, minimum, a, b)
  {
    hide ChunksRefused, Without, Start, ChunkSize, ConfirmedEarlier;
    if Shrinks(log, count, minimum, a, b) {
      var size := ChunkSize(|a.items|, a.granularity);
      var k: nat :| Start(k, size) < |a.items| && b.items == Without(a.items, Start(k, size), size)
                    && ChunksRefused(log, a.items, size, minimum, k);
      RefusedSurvives(log, longer, a.items, size, minimum, k);
      ConfirmedEarlierSurvives(log, longer, b.items, count);
    }
    if Refines(log, minimum, a, b) {
      RefusedSurvives(log, longer, a.items, ChunkSize(|a.items|, a.granularity), minimum, |a.items|);
    }
  }

  lemma ScheduleGrows<T>(log: seq<Trial<seq<T>>>, longer: seq<Trial<seq<T>>>, count: int, minimum: nat, items: seq<T>,
                         passes: seq<Pass<T>>)
    requires log <= longer && Scheduled(log, count, minimum, items, passes)
    ensures Scheduled(longer, count, minimum, items, passes)
  {
    hide Shrinks, Refines;
    forall i, j | 0 <= i < |passes| && j == i + 1 < |passes|
      ensures Shrinks(longer, count, minimum, passes[i], passes[j]) || Refines(longer, minimum, passes[i], passes[j])
    {
      ShrinksSurvives(log, longer, count, minimum, passes[i], passes[j]);
    }
  }

  lemma ScheduleNext<T>(log: seq<Trial<seq<T>>>, count: int, minimum: nat, items: seq<T>, passes: seq<Pass<T>>,
                        next: Pass<T>)
    requires Scheduled(log, count, minimum, items, passes)
    requires var last := passes[|passes| - 1];
             Shrinks(log, count, minimum, last, next) || Refines(log, minimum, last, next)
    ensures Scheduled(log, count, minimum, items, passes + [next])
  {
    hide Shrinks, Refines;
  }

  /** What a reduction promises about its result. */
  ghost predicate Reduced<T(!new)>(
    world: World<seq<T>>, limits: ReductionLimits, original: seq<T>, minimum: nat,
    reduction: SequenceReduction<T>, log: seq<Trial<seq<T>>>) {
    var items, trace := reduction.items, reduction.trace;
    && Subsequence(items, original) && minimum <= |items|
    && ConfirmedEarlier(log, items, limits.confirmationCount)
    && trace == Trace(|original|, |items|, |log|, InconclusiveCount(log), trace.budgetExhausted)
    && (Deterministic(world) && !trace.budgetExhausted ==> OneMinimal(world, items, minimum))
  }

  ghost predicate Spent<C>(world: World<C>, limits: ReductionLimits, log: seq<Trial<C>>) {
    |log| == limits.maximumTrials || TimeUp(world, limits)
  }

  ghost predicate LastRefuted<C>(log: seq<Trial<C>>, candidate: C) {
    0 < |log| && log[|log| - 1].candidate == candidate && !log[|log| - 1].outcome.Reproduced?
  }

  method ReduceSequence<T(==,!new)>(items: seq<T>, world: World<seq<T>>, limits: ReductionLimits, minimum: int)
    returns (result: Result<SequenceReduction<T>, ReductionError>, ghost log: seq<Trial<seq<T>>>,
             ghost starts: seq<nat>, ghost calls: nat, ghost passes: seq<Pass<T>>)
    requires LimitsAccepted(limits)
    ensures result == Err(InvalidMinimum) <==> minimum < 0 || minimum > |items|
    ensures result == Err(InvalidMinimum) ==> log == [] && calls == 0
    ensures Deterministic(world) && ClockInside(world, limits) && 0 <= minimum <= |items| ==>
              (result == Err(NotAStableFailure) <==> !Reproduces(world, items))
    ensures result.Ok? ==> 0 <= minimum && Reduced(world, limits, items, minimum, result.value, log)
    ensures Faithful(world, log) && |log| <= limits.maximumTrials && |log| <= calls * limits.confirmationCount
    ensures StartedInTime(world, limits, log, starts)
    ensures result == Err(NotAStableFailure) ==> Spent(world, limits, log) || LastRefuted(log, items)
    ensures result.Ok? && result.value.trace.budgetExhausted ==> Spent(world, limits, log)
    ensures result.Ok? ==>
              && Scheduled(log, limits.confirmationCount, minimum, items, passes)
              && passes[|passes| - 1].items == result.value.items
              && Ended(log, minimum, result.value.trace.budgetExhausted, passes[|passes| - 1])
    ensures calls <= 1 + Triangle(|items|)
    ensures result.Ok? && ClockInside(world, limits) && Affords(limits, 1 + Triangle(|items|)) ==>
              !result.value.trace.budgetExhausted
  {
    hide Subsequence, Faithful, Deterministic, Confirmed, ConfirmedEarlier, ClockInside, ChunksRefused, OneMinimal,
         Reproduces, InconclusiveCount, Triangle, StartedInTime, ReadingsSettled, TimeUp, Affords,
         Remaining, ChunkSize, Start, Without, Searching, Ended;
    log, starts, calls, passes := [], [], 0, [];
    NothingKept(world, limits);
    if minimum < 0 || minimum > |items| {
      return Err(InvalidMinimum), log, starts, calls, passes;
    }
    var evaluator := new ConfirmedEvaluator(world, limits);
    var confirmed := evaluator.Confirms(items);
    log, starts, calls := evaluator.log, evaluator.starts, evaluator.calls;
    if Deterministic(world) && ClockInside(world, limits) {
      FirstConfirmationDecides(evaluator, items, confirmed);
    }
    if !confirmed {
      return Err(NotAStableFailure), log, starts, calls, passes;
    }
    var current := items;
    var granularity := 2;
    passes := [Pass(items, 2)];
    SearchStarts(evaluator.log, limits.confirmationCount, minimum, items, evaluator.exhausted);
    RemainingBound(|items|, 2);
    if Affords(limits, 1 + Triangle(|items|)) { FewerCallsAfforded(limits, 1, 1 + Triangle(|items|)); }
    while |current| > minimum && !evaluator.exhausted
      invariant evaluator.Valid() && evaluator.world == world && evaluator.limits == limits
      invariant minimum <= |current| && 2 <= granularity
      invariant Searching(evaluator.log, limits.confirmationCount, minimum, items, current, granularity, passes,
                          evaluator.exhausted)
      invariant evaluator.calls <= 1 + Triangle(|items|)
      invariant evaluator.calls + Remaining(|current|, granularity) <= 1 + Triangle(|items|)
      invariant ClockInside(world, limits) && Affords(limits, 1 + Triangle(|items|)) ==> !evaluator.exhausted
      decreases |current|, |current| - granularity
    {
      PassCosts(|current|, granularity);
      if Affords(limits, 1 + Triangle(|items|)) {
        FewerCallsAfforded(limits, evaluator.calls + Min(granularity, |current|), 1 + Triangle(|items|));
      }
      ghost var before := evaluator.log;
      var changed, next := TryChunks(evaluator, current, granularity, minimum);
      if changed {
        ShorterCostsLess(|current|, granularity, |next|, Max(2, granularity - 1));
        passes := SearchShrinks(before, evaluator.log, limits.confirmationCount, minimum, items, current, granularity,
                                passes, next);
        current := next;
        granularity := Max(2, granularity - 1);
        continue;
      }
      SearchGoesOn(before, evaluator.log, limits.confirmationCount, minimum, items, current, granularity, passes,
                   evaluator.exhausted);
      if granularity >= |current| {
        break;
      }
      FinerCostsLess(|current|, granularity);
      passes := SearchRefines(evaluator.log, limits.confirmationCount, minimum, items, current, granularity, passes,
                              evaluator.exhausted);
      granularity := Min(|current|, granularity * 2);
    }
    log, starts, calls := evaluator.log, evaluator.starts, evaluator.calls;
    SearchEnds(world, log, limits.confirmationCount, minimum, items, current, granularity, passes, evaluator.exhausted);
    result := Ok(SequenceReduction(current,
                                   Trace(|items|, |current|, evaluator.trials, evaluator.inconclusiveTrials,
                                         evaluator.exhausted)));
  }

  /** What a search keeps: what is left was confirmed and came from the items by the passes so far. */
  ghost predicate Searching<T>(log: seq<Trial<seq<T>>>, count: int, minimum: nat, items: seq<T>, current: seq<T>,
                               granularity: nat, passes: seq<Pass<T>>, exhausted: bool) {
    && Subsequence(current, items) && minimum <= |current| && ConfirmedEarlier(log, current, count)
    && 2 <= granularity && passes != [] && passes[|passes| - 1].items == current
    && (!exhausted ==> passes[|passes| - 1].granularity == granularity)
    && Scheduled(log, count, minimum, items, passes)
  }

  lemma SearchStarts<T>(log: seq<Trial<seq<T>>>, count: int, minimum: nat, items: seq<T>, exhausted: bool)
    requires Confirmed(log, items, count) && minimum <= |items|
    ensures Searching(log, count, minimum, items, items, 2, [Pass(items, 2)], exhausted)
  {
    hide Subsequence, ConfirmedEarlier, Confirmed;
    SubsequenceReflexive(items);
    ConfirmedAtTheEnd(log, items, count);
  }

  lemma SearchShrinks<T>(log: seq<Trial<seq<T>>>, longer: seq<Trial<seq<T>>>, count: int, minimum: nat, items: seq<T>,
                         current: seq<T>, granularity: nat, passes: seq<Pass<T>>, next: seq<T>)
    returns (more: seq<Pass<T>>)
    requires Searching(log, count, minimum, items, current, granularity, passes, false) && log <= longer
    requires Subsequence(next, current) && minimum <= |next| && Confirmed(longer, next, count)
    requires var size := ChunkSize(|current|, granularity);
             exists k: nat :: Start(k, size) < |current| && next == Without(current, Start(k, size), size)
                              && ChunksRefused(longer, current, size, minimum, k)
    ensures Searching(longer, count, minimum, items, next, Max(2, granularity - 1), more, false)
  {
    hide Subsequence, ConfirmedEarlier, Confirmed, Scheduled, ChunksRefused, Without, Start, ChunkSize;
    SubsequenceTransitive(next, current, items);
    ConfirmedAtTheEnd(longer, next, count);
    ScheduleGrows(log, longer, count, minimum, items, passes);
    ScheduleShrinks(longer, count, minimum, items, passes, next);
    more := passes + [Pass(next, Max(2, granularity - 1))];
  }

  /** A pass without success: the same, and unless the budget is spent every chunk was refused. */
  lemma SearchGoesOn<T>(log: seq<Trial<seq<T>>>, longer: seq<Trial<seq<T>>>, count: int, minimum: nat, items: seq<T>,
                        current: seq<T>, granularity: nat, passes: seq<Pass<T>>, exhausted: bool)
    requires Searching(log, count, minimum, items, current, granularity, passes, false) && log <= longer
    ensures Searching(longer, count, minimum, items, current, granularity, passes, exhausted)
  {
    hide Subsequence, ConfirmedEarlier, Scheduled;
    ConfirmedEarlierSurvives(log, longer, current, count);
    ScheduleGrows(log, longer, count, minimum, items, passes);
  }

  lemma SearchRefines<T>(log: seq<Trial<seq<T>>>, count: int, minimum: nat, items: seq<T>, current: seq<T>,
                         granularity: nat, passes: seq<Pass<T>>, exhausted: bool)
    returns (more: seq<Pass<T>>)
    requires Searching(log, count, minimum, items, current, granularity, passes, exhausted) && granularity < |current|
    requires !exhausted ==> ChunksRefused(log, current, ChunkSize(|current|, granularity), minimum, |current|)
    ensures Searching(log, count, minimum, items, current, Min(|current|, granularity * 2), more, exhausted)
  {
    hide Subsequence, ConfirmedEarlier, Scheduled, ChunksRefused, ChunkSize;
    more := passes;
    if !exhausted {
      ScheduleRefines(log, count, minimum, items, passes);
      more := passes + [Pass(current, Min(|current|, granularity * 2))];
    }
  }

  /** What a search that ended leaves. */
  lemma SearchEnds<T(!new)>(world: World<seq<T>>, log: seq<Trial<seq<T>>>, count: int, minimum: nat, items: seq<T>,
                            current: seq<T>, granularity: nat, passes: seq<Pass<T>>, exhausted: bool)
    requires Searching(log, count, minimum, items, current, granularity, passes, exhausted) && Faithful(world, log)
    requires || exhausted || |current| <= minimum
             || (0 < |current| <= granularity
                 && ChunksRefused(log, current, ChunkSize(|current|, granularity), minimum, |current|))
    ensures Subsequence(current, items) && minimum <= |current| && ConfirmedEarlier(log, current, count)
    ensures passes != [] && Scheduled(log, count, minimum, items, passes) && passes[|passes| - 1].items == current
    ensures Ended(log, minimum, exhausted, passes[|passes| - 1])
    ensures Deterministic(world) && !exhausted ==> OneMinimal(world, current, minimum)
  {
    hide Subsequence, ConfirmedEarlier, Scheduled, ChunksRefused, ChunkSize, Faithful, Deterministic, OneMinimal;
    if 0 < |current| <= granularity { SingleChunks(|current|, granularity); }
    if Deterministic(world) && !exhausted { EndedIsMinimal(world, log, minimum, passes[|passes| - 1]); }
  }

  lemma ScheduleStarts<T>(log: seq<Trial<seq<T>>>, count: int, minimum: nat, items: seq<T>)
    ensures Scheduled(log, count, minimum, items, [Pass(items, 2)])
  {
  }

  lemma ScheduleShrinks<T>(log: seq<Trial<seq<T>>>, count: int, minimum: nat, items: seq<T>, passes: seq<Pass<T>>,
                           next: seq<T>)
    requires passes != [] && Scheduled(log, count, minimum, items, passes)
    requires minimum <= |next| && ConfirmedEarlier(log, next, count)
    requires var a := passes[|passes| - 1];
             && 2 <= a.granularity
             && var size := ChunkSize(|a.items|, a.granularity);
                exists k: nat :: Start(k, size) < |a.items| && next == Without(a.items, Start(k, size), size)
                                 && ChunksRefused(log, a.items, size, minimum, k)
    ensures var a := passes[|passes| - 1];
            Scheduled(log, count, minimum, items, passes + [Pass(next, Max(2, a.granularity - 1))])
  {
    hide ChunksRefused, Without, Start, ChunkSize, ConfirmedEarlier, Scheduled, Refines;
    ScheduleNext(log, count, minimum, items, passes, Pass(next, Max(2, passes[|passes| - 1].granularity - 1)));
  }

  lemma ScheduleRefines<T>(log: seq<Trial<seq<T>>>, count: int, minimum: nat, items: seq<T>, passes: seq<Pass<T>>)
    requires passes != [] && Scheduled(log, count, minimum, items, passes)
    requires var a := passes[|passes| - 1];
             && 0 < a.granularity < |a.items|
             && ChunksRefused(log, a.items, ChunkSize(|a.items|, a.granularity), minimum, |a.items|)
    ensures var a := passes[|passes| - 1];
            Scheduled(log, count, minimum, items, passes + [Pass(a.items, Min(|a.items|, a.granularity * 2))])
  {
    hide ChunksRefused, ChunkSize, Scheduled, Shrinks;
    var a := passes[|passes| - 1];
    ScheduleNext(log, count, minimum, items, passes, Pass(a.items, Min(|a.items|, a.granularity * 2)));
  }

  /** In a deterministic world a search that ended within its budget ended at a one-minimal sequence. */
  lemma EndedIsMinimal<T(!new)>(world: World<seq<T>>, log: seq<Trial<seq<T>>>, minimum: nat, last: Pass<T>)
    requires Faithful(world, log) && Deterministic(world) && Ended(log, minimum, false, last)
    requires minimum <= |last.items|
    ensures OneMinimal(world, last.items, minimum)
  {
    hide Faithful, Deterministic, Without, Reproduces, ChunksRefused, ChunksStay, OneMinimal;
    if |last.items| <= minimum {
      OneMinimalAtMinimum(world, last.items, minimum);
    } else {
      RefusedStay(world, log, last.items, 1, minimum, |last.items|);
      SinglesStay(world, last.items, minimum);
    }
  }

  lemma OneMinimalAtMinimum<T(!new)>(world: World<seq<T>>, items: seq<T>, minimum: nat)
    requires |items| == minimum
    ensures OneMinimal(world, items, minimum)
  {
  }
}
