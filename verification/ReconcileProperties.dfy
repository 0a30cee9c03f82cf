/** Reconciliation as a repair: what it keeps, what it removes, and when repeating it changes nothing. */
module ReconcileProperties {
  import opened Results
  import opened Graphs
  import opened Gates
  import opened GateProperties
  import opened StateTree
  import opened Markers
  import opened MerkleChain
  import opened Authority
  import opened Relocation
  import opened Reconcile
  import opened Frames

  /** The files that bound steps read belong to the steps they are bound to, and each domain step owns the result
      it decides by. */
  ghost predicate Anchored(tables: Tables) {
    && MATRIX_LOCK_FILE in Claims(tables, MatrixLock)
    && LOCKED_SPECIFICATION_FILE in Claims(tables, MatrixLock)
    && CORPORA_FILE in Claims(tables, CorpusMaterialization)
    && forall d :: IsDomain(d) ==> ClaimedBy(tables, d, ResultFile(d))
  }

  ghost predicate Accepted(tables: Tables) {
    Coherent(tables) && DistinctNames(tables) && Anchored(tables)
  }

  /** The steps of the mode that do not verify, each once. */
  ghost predicate IsInvalidList(run: Run, t: Tree, invalid: seq<Step>) {
    && NoDuplicates(invalid)
    && forall s :: s in invalid <==> s in ModeSteps(run.mode) && !Verifies(run, t, s)
  }

  /** A path that moving a step aside takes away. */
  predicate Takes(tables: Tables, step: Step, p: Path) {
    ClaimedBy(tables, step, p) || MarkerPath(tables, step) <= p
  }

  ghost predicate Taken(tables: Tables, invalid: seq<Step>, p: Path) {
    exists s :: s in invalid && Takes(tables, s, p)
  }

  /** A step whose disappearance takes a file that the check of public-failure reads: the matrix lock, the corpora,
      or the result its disposition names. */
  ghost predicate Feeds(run: Run, t: Tree, s: Step) {
    s == MatrixLock || s == CorpusMaterialization || OwnsNamedResult(run, t, s)
  }

  ghost predicate OwnsNamedResult(run: Run, t: Tree, s: Step) {
    NamedResult(run, t).Some? && Takes(run.tables, s, NamedResult(run, t).value)
  }

  /** A public failure step that verifies while a step it is fed by does not. */
  ghost predicate Stranded(run: Run, t: Tree) {
    && Verifies(run, t, PublicFailure)
    && exists s :: s in ModeSteps(run.mode) && !Verifies(run, t, s) && Feeds(run, t, s)
  }

  // ---------------------------------------------------------------- what the moves leave behind

  /** The state after the claims and markers of the invalid steps are gone. */
  ghost predicate Cleared(tables: Tables, t: Tree, u: Tree, invalid: seq<Step>) {
    && (forall s :: s !in invalid ==> SameClaims(tables, t, u, s) && SameMarker(tables, t, u, s))
    && (forall s, p :: s in invalid && ClaimedBy(tables, s, p) ==> p !in u)
    && (forall s :: s in invalid ==> MarkerPath(tables, s) !in u)
    && (forall p :: Taken(tables, invalid, p) ==> p !in u)
    && (forall p :: p in t && p != [] && !Taken(tables, invalid, p) ==> SameEntry(t, u, p))
  }

  lemma ShiftAvoids(tables: Tables, root: Path, invalid: seq<Step>, s: Step, l: int, p: Path)
    requires Coherent(tables) && DistinctNames(tables) && s !in invalid
    requires 0 <= l <= |Claims(tables, s)| && Overlap(PathAt(tables, s, l), p)
    ensures !Covered(Shifts(tables, root, invalid), p)
  {
    hide StepShifts, Claims, Coherent, DistinctNames;
    var shifts := Shifts(tables, root, invalid);
    forall i | 0 <= i < |shifts| ensures !(shifts[i].source <= p) {
      var n, k := ShiftBelongs(tables, root, invalid, i);
      ShiftOrigin(tables, root, invalid[n], k);
      SourcesApart(tables, invalid[n], k, s, l);
      OverlapBelow(shifts[i].source, PathAt(tables, s, l), p);
    }
  }

  lemma OverlapBelow(a: Path, b: Path, p: Path)
    requires !Overlap(a, b) && Overlap(b, p)
    ensures !(a <= p)
  {
    if p <= b {
      PrefixTransitive(a, p, b);
    } else {
      PrefixesOverlap(a, b, p);
    }
  }

  /** A path that meets a claim or the marker of a step which is not moved keeps its entry. */
  lemma UntouchedEntry(tables: Tables, t: Tree, root: Path, invalid: seq<Step>, s: Step, l: int, p: Path)
    requires Coherent(tables) && DistinctNames(tables) && NoDuplicates(invalid) && s !in invalid
    requires |root| == 2 && root[0] == "stale"
    requires 0 <= l <= |Claims(tables, s)| && Overlap(PathAt(tables, s, l), p) && p != []
    ensures SameEntry(t, MoveAll(t, Shifts(tables, root, invalid)), p)
  {
    hide Shifts, MoveAll, Claims, SafeClaim;
    ShiftsOrderly(tables, root, invalid);
    ShiftAvoids(tables, root, invalid, s, l, p);
    FirstComponent(tables, s, l);
    assert p[0] == PathAt(tables, s, l)[0];
    KeptEntry(t, Shifts(tables, root, invalid), root, p);
  }

  lemma FirstComponent(tables: Tables, s: Step, l: int)
    requires Coherent(tables) && 0 <= l <= |Claims(tables, s)|
    ensures PathAt(tables, s, l) != [] && PathAt(tables, s, l)[0] != "stale"
  {
    if l < |Claims(tables, s)| {
      assert IsClaim(tables, s, l);
    } else {
      assert MarkerPath(tables, s)[0] == "done";
      assert "done"[0] != "stale"[0];
    }
  }

  /** The moves cover exactly the paths that belong to the invalid steps. */
  lemma CoveredMeansTaken(tables: Tables, root: Path, invalid: seq<Step>, p: Path)
    ensures Covered(Shifts(tables, root, invalid), p) <==> Taken(tables, invalid, p)
  {
    hide Shifts, StepShifts, Claims, MarkerPath;
    var shifts := Shifts(tables, root, invalid);
    if i :| 0 <= i < |shifts| && shifts[i].source <= p {
      var n, k := ShiftBelongs(tables, root, invalid, i);
      ShiftOrigin(tables, root, invalid[n], k);
      if k < |Claims(tables, invalid[n])| {
        assert Claims(tables, invalid[n])[k] in Claims(tables, invalid[n]);
        assert ClaimedBy(tables, invalid[n], p);
      }
      assert Takes(tables, invalid[n], p);
    }
    if s :| s in invalid && Takes(tables, s, p) {
      var l := TakingPath(tables, s, p);
      var n :| 0 <= n < |invalid| && invalid[n] == s;
      StepShiftCount(tables, root, s);
      ShiftOrigin(tables, root, s, l);
      var i := ShiftIncluded(tables, root, invalid, n, l);
    }
  }

  lemma TakingPath(tables: Tables, s: Step, p: Path) returns (l: int)
    requires Takes(tables, s, p)
    ensures 0 <= l <= |Claims(tables, s)| && PathAt(tables, s, l) <= p
  {
    hide Claims, MarkerPath;
    if ClaimedBy(tables, s, p) {
      var c :| c in Claims(tables, s) && c <= p;
      l :| 0 <= l < |Claims(tables, s)| && Claims(tables, s)[l] == c;
    } else {
      l := |Claims(tables, s)|;
    }
  }

  /** What belongs to no invalid step keeps its entry, wherever it lies. */
  lemma UntakenEntry(tables: Tables, t: Tree, root: Path, invalid: seq<Step>, p: Path)
    requires Coherent(tables) && DistinctNames(tables) && NoDuplicates(invalid) && Fresh(t, root)
    requires |root| == 2 && root[0] == "stale" && p in t && p != [] && !Taken(tables, invalid, p)
    ensures SameEntry(t, MoveAll(t, Shifts(tables, root, invalid)), p)
  {
    hide Shifts, MoveAll, Coherent, DistinctNames, Taken;
    CoveredMeansTaken(tables, root, invalid, p);
    ShiftsOrderly(tables, root, invalid);
    if p[0] == root[0] {
      StoredEntry(t, Shifts(tables, root, invalid), root, p);
    } else {
      KeptEntry(t, Shifts(tables, root, invalid), root, p);
    }
  }

  lemma TakenEntry(tables: Tables, t: Tree, root: Path, invalid: seq<Step>, p: Path)
    requires Coherent(tables) && DistinctNames(tables) && NoDuplicates(invalid) && Rooted(t)
    requires |root| == 2 && root[0] == "stale" && Taken(tables, invalid, p)
    ensures p !in MoveAll(t, Shifts(tables, root, invalid))
  {
    hide Shifts, MoveAll, Claims, Coherent, DistinctNames, Takes;
    var s :| s in invalid && Takes(tables, s, p);
    var l := TakingPath(tables, s, p);
    RemovedEntry(tables, t, root, invalid, s, l, p);
  }

  /** After the moves exactly what belongs to the invalid steps is gone. */
  lemma MovesClear(tables: Tables, t: Tree, root: Path, invalid: seq<Step>)
    requires Coherent(tables) && DistinctNames(tables) && NoDuplicates(invalid) && Rooted(t)
    requires |root| == 2 && root[0] == "stale" && Fresh(t, root)
    ensures Cleared(tables, t, MoveAll(t, Shifts(tables, root, invalid)), invalid)
  {
    hide Shifts, MoveAll, Claims, Coherent, DistinctNames, SameEntry, Taken, Takes, Fresh;
    var u := MoveAll(t, Shifts(tables, root, invalid));
    forall s | s !in invalid ensures SameClaims(tables, t, u, s) && SameMarker(tables, t, u, s) {
      forall p | NearClaim(tables, s, p) ensures SameEntry(t, u, p) {
        var c :| c in Claims(tables, s) && Overlap(c, p);
        var l :| 0 <= l < |Claims(tables, s)| && Claims(tables, s)[l] == c;
        UntouchedEntry(tables, t, root, invalid, s, l, p);
      }
      UntouchedEntry(tables, t, root, invalid, s, |Claims(tables, s)|, MarkerPath(tables, s));
    }
    forall s, p | s in invalid && ClaimedBy(tables, s, p) ensures p !in u {
      var c :| c in Claims(tables, s) && c <= p;
      var l :| 0 <= l < |Claims(tables, s)| && Claims(tables, s)[l] == c;
      RemovedEntry(tables, t, root, invalid, s, l, p);
    }
    forall s | s in invalid ensures MarkerPath(tables, s) !in u {
      RemovedEntry(tables, t, root, invalid, s, |Claims(tables, s)|, MarkerPath(tables, s));
    }
    forall p | Taken(tables, invalid, p) ensures p !in u {
      TakenEntry(tables, t, root, invalid, p);
    }
    forall p | p in t && p != [] && !Taken(tables, invalid, p) ensures SameEntry(t, u, p) {
      UntakenEntry(tables, t, root, invalid, p);
    }
  }

  lemma RemovedEntry(tables: Tables, t: Tree, root: Path, invalid: seq<Step>, s: Step, l: int, p: Path)
    requires Coherent(tables) && DistinctNames(tables) && NoDuplicates(invalid) && s in invalid && Rooted(t)
    requires |root| == 2 && root[0] == "stale"
    requires 0 <= l <= |Claims(tables, s)| && PathAt(tables, s, l) <= p
    ensures p !in MoveAll(t, Shifts(tables, root, invalid))
  {
    hide Shifts, MoveAll, Claims, Coherent, DistinctNames, StepShifts;
    var n :| 0 <= n < |invalid| && invalid[n] == s;
    StepShiftCount(tables, root, s);
    ShiftOrigin(tables, root, s, l);
    var i := ShiftIncluded(tables, root, invalid, n, l);
    ShiftsOrderly(tables, root, invalid);
    GoneEntry(t, Shifts(tables, root, invalid), root, i, p);
  }

  lemma StepShiftCount(tables: Tables, root: Path, s: Step)
    ensures |StepShifts(tables, root, s)| == |Claims(tables, s)| + 1
  {
  }

  // ---------------------------------------------------------------- dependencies resolved from markers

  lemma {:induction false} SameFailures(run: Run, t: Tree, u: Tree, candidates: seq<Step>)
    requires forall x :: x in candidates ==> (SaysFailed(run, t, x) <==> SaysFailed(run, u, x))
    ensures FailedAmong(run, t, candidates) == FailedAmong(run, u, candidates)
  {
    hide SaysFailed;
    if candidates != [] {
      SameFailures(run, t, u, candidates[1..]);
    }
  }

  /** The markers that the dependencies of a step are resolved from. */
  function Consulted(step: Step, mode: Mode): seq<Step> {
    if step.PublicFailure? then DomainFailureSteps()
    else if step.FinalEvidence? then Candidates(mode)
    else []
  }

  lemma SameResolution(run: Run, t: Tree, u: Tree, step: Step)
    requires FailedAmong(run, t, Consulted(step, run.mode)) == FailedAmong(run, u, Consulted(step, run.mode))
    ensures Dependencies(run, t, step) == Dependencies(run, u, step)
  {
    hide FailedAmong, Candidates, DomainFailureSteps, Through, StepDependencies;
  }

  /** Every consulted step whose marker says it failed is itself a dependency. */
  lemma FailedIsDependency(run: Run, t: Tree, step: Step, x: Step)
    requires Dependencies(run, t, step).Some?
    requires x in Consulted(step, run.mode) && SaysFailed(run, t, x)
    ensures x in Dependencies(run, t, step).value
  {
    hide SaysFailed, Candidates, StepDependencies, DomainFailureSteps;
    var failed := FailedAmong(run, t, Consulted(step, run.mode));
    assert x in failed;
    assert |failed| <= 1;
    assert failed[0] == x;
    if step.FinalEvidence? {
      IndexOfInRange(Candidates(run.mode), x);
      var at := IndexOf(Candidates(run.mode), x);
      assert Candidates(run.mode)[..at + 1][at] == x;
    }
  }

  lemma ClearedMarkers(run: Run, t: Tree, u: Tree, invalid: seq<Step>, x: Step)
    requires Cleared(run.tables, t, u, invalid)
    ensures x in invalid ==> !SaysFailed(run, u, x)
    ensures x !in invalid ==> (SaysFailed(run, t, x) <==> SaysFailed(run, u, x))
  {
    hide MarkerPath, Claims, SameClaims;
  }

  /** A valid step resolves to the same dependencies after the invalid markers are gone. */
  lemma SameDependencies(run: Run, t: Tree, u: Tree, invalid: seq<Step>, step: Step)
    requires Cleared(run.tables, t, u, invalid) && IsInvalidList(run, t, invalid)
    requires Verifies(run, t, step)
    ensures Dependencies(run, t, step) == Dependencies(run, u, step)
  {
    hide SaysFailed, Consulted, Cleared, Dependencies, Verifies, ModeSteps;
    VerifiesMeans(run, t, step);
    forall x | x in Consulted(step, run.mode) ensures SaysFailed(run, t, x) <==> SaysFailed(run, u, x) {
      ClearedMarkers(run, t, u, invalid, x);
      if SaysFailed(run, t, x) {
        FailedIsDependency(run, t, step, x);
      }
    }
    SameFailures(run, t, u, Consulted(step, run.mode));
    SameResolution(run, t, u, step);
  }

  // ---------------------------------------------------------------- what a valid step stands on

  lemma {:induction false} ConeVerifies(run: Run, t: Tree, step: Step, c: Step)
    requires Verifies(run, t, step) && InCone(run, t, step, c)
    ensures Verifies(run, t, c)
    decreases Rank(step)
  {
    hide Dependencies, Verifies, InCone, Rank, CheckMarker, ModeSteps;
    if c != step {
      VerifiesMeans(run, t, step);
      var d := ConeSplits(run, t, step, c);
      ConeVerifies(run, t, d, c);
    }
  }

  /** A candidate that verifies as failed is a domain step. */
  lemma FailedCandidateIsDomain(run: Run, t: Tree, step: Step)
    requires Verifies(run, t, step) && SaysFailed(run, t, step) && step != FinalEvidence
    ensures IsDomain(step)
  {
    hide Payload, Verifies, Inventory, Dependencies, DependencyHashes, BindsMatrix, BindsCorpora, MatrixBinding,
         CorpusBinding, SpecificationLineage, View, MarkerPath;
    var bytes, marker := VerifiedMarker(run, t, step);
    PayloadFields(run, t, step, marker);
  }

  lemma RoutesAvoidPublicFailure(step: Step)
    ensures IsMatrixBound(step) ==> MatrixRoute(step) != PublicFailure
    ensures IsCorpusBound(step) ==> CorpusRoute(step) != PublicFailure
  {
  }

  ghost predicate Unanchored(run: Run, t: Tree, step: Step) {
    step == PublicFailure && Dependencies(run, t, PublicFailure) == Some([])
  }

  /** The dependency through which a bound step verifies its binding: a failed domain step for the two steps
      resolved from markers, the table's route for the others, or the target itself. */
  lemma BoundDependency(run: Run, t: Tree, step: Step, target: Step) returns (d: Step)
    requires target == MatrixLock || target == CorpusMaterialization
    requires if target == MatrixLock then IsMatrixBound(step) else IsCorpusBound(step)
    requires Verifies(run, t, step) && !Unanchored(run, t, step)
    ensures Verifies(run, t, d) && Rank(d) < Rank(step) && d != PublicFailure
    ensures d == target || (if target == MatrixLock then IsMatrixBound(d) else IsCorpusBound(d))
  {
    hide SaysFailed, Verifies, Rank, IsMatrixBound, IsCorpusBound, MatrixRoute, CorpusRoute, CheckMarker, ModeSteps,
         Candidates, StepDependencies, Dependencies, Consulted;
    VerifiesMeans(run, t, step);
    var deps := Dependencies(run, t, step).value;
    if step == PublicFailure {
      d := PublicFailureDependency(run, t);
      MatrixDomainBound(d);
      CorpusDomainBound(d);
    } else if step == FinalEvidence {
      d := FinalEvidenceDependency(run, t, target);
      if d != target {
        FailedCandidateIsDomain(run, t, d);
        MatrixDomainBound(d);
        CorpusDomainBound(d);
      }
    } else {
      d := if target == MatrixLock then MatrixRoute(step) else CorpusRoute(step);
      RoutesAvoidPublicFailure(step);
      OrdinaryDependencies(run, t, step);
      if target == MatrixLock {
        MatrixRouteTable(step);
        MatrixRouteDescends(step);
      } else {
        CorpusRouteTable(step);
        CorpusRouteDescends(step);
      }
    }
    assert d in deps;
  }

  lemma OrdinaryDependencies(run: Run, t: Tree, step: Step)
    requires step != PublicFailure && step != FinalEvidence
    ensures Dependencies(run, t, step) == Some(StepDependencies(step))
  {
    hide FailedAmong, Candidates, DomainFailureSteps, StepDependencies;
  }

  lemma PublicFailureDependency(run: Run, t: Tree) returns (d: Step)
    requires Dependencies(run, t, PublicFailure).Some? && Dependencies(run, t, PublicFailure) != Some([])
    ensures d in Dependencies(run, t, PublicFailure).value && IsDomain(d)
  {
    hide Candidates, StepDependencies;
    d := Dependencies(run, t, PublicFailure).value[0];
    assert d in FailedAmong(run, t, DomainFailureSteps());
  }

  lemma FinalEvidenceDependency(run: Run, t: Tree, target: Step) returns (d: Step)
    requires Dependencies(run, t, FinalEvidence).Some?
    requires target == MatrixLock || target == CorpusMaterialization
    ensures d in Dependencies(run, t, FinalEvidence).value && d != PublicFailure
    ensures d == target || (SaysFailed(run, t, d) && d != FinalEvidence)
  {
    hide Candidates, StepDependencies, SaysFailed, DomainFailureSteps;
    var candidates := Candidates(run.mode);
    var failed := FailedAmong(run, t, candidates);
    if failed == [] {
      d := target;
      CandidatesOf(run.mode, target);
      BindingTargetsInEveryMode(run.mode);
      assert Dependencies(run, t, FinalEvidence).value == candidates;
    } else {
      d := failed[0];
      assert d in failed;
      CandidatesOf(run.mode, d);
      FailedIsDependency(run, t, FinalEvidence, d);
    }
  }

  /** A verified step that is bound to a target by its table verifies that target, unless it is a public failure
      step without dependencies. */
  lemma {:induction false} BindingVerifies(run: Run, t: Tree, step: Step, target: Step)
    requires target == MatrixLock || target == CorpusMaterialization
    requires if target == MatrixLock then IsMatrixBound(step) else IsCorpusBound(step)
    requires Verifies(run, t, step) && !Unanchored(run, t, step)
    ensures Verifies(run, t, target)
    decreases Rank(step)
  {
    hide Verifies, Rank, IsMatrixBound, IsCorpusBound, Dependencies;
    var d := BoundDependency(run, t, step, target);
    if d != target {
      BindingVerifies(run, t, d, target);
    }
  }

  // ---------------------------------------------------------------- the valid steps stay valid

  lemma SameFile(tables: Tables, t: Tree, u: Tree, step: Step, file: Path)
    requires SameClaims(tables, t, u, step) && file in Claims(tables, step) && file != []
    ensures ReadFile(t, file) == ReadFile(u, file)
  {
    hide Claims;
    assert Overlap(file, file);
    assert NearClaim(tables, step, file);
    assert SameEntry(t, u, file);
  }

  lemma BindingTargetKept(run: Run, t: Tree, u: Tree, invalid: seq<Step>, step: Step, target: Step)
    requires Cleared(run.tables, t, u, invalid) && IsInvalidList(run, t, invalid)
    requires Verifies(run, t, step) && (step == PublicFailure ==> !Stranded(run, t))
    requires target == MatrixLock || target == CorpusMaterialization
    requires step == target || (if target == MatrixLock then IsMatrixBound(step) else IsCorpusBound(step))
    ensures SameClaims(run.tables, t, u, target) && SameMarker(run.tables, t, u, target)
  {
    hide Verifies, IsMatrixBound, IsCorpusBound, Dependencies, ModeSteps, SameClaims, SameMarker, OwnsNamedResult,
         Taken, SameEntry;
    BindingTargetsInEveryMode(run.mode);
    if step != target && !Unanchored(run, t, step) { BindingVerifies(run, t, step, target); }
    assert Feeds(run, t, target);
    assert Verifies(run, t, target) && target !in invalid;
  }

  /** What a state says about the matrix and the specification comes from the files and the marker of matrix-lock. */
  lemma SameMatrix(run: Run, t: Tree, u: Tree)
    requires Anchored(run.tables)
    requires SameClaims(run.tables, t, u, MatrixLock) && SameMarker(run.tables, t, u, MatrixLock)
    ensures MatrixBinding(run, t) == MatrixBinding(run, u)
    ensures SpecificationLineage(run, t) == SpecificationLineage(run, u)
  {
    hide Claims, MarkerPath, SameClaims, SpecificationOf;
    SameFile(run.tables, t, u, MatrixLock, MATRIX_LOCK_FILE);
    SameFile(run.tables, t, u, MatrixLock, LOCKED_SPECIFICATION_FILE);
  }

  lemma SameCorpora(run: Run, t: Tree, u: Tree, verifyContents: bool)
    requires Anchored(run.tables) && SameClaims(run.tables, t, u, CorpusMaterialization)
    ensures CorpusBinding(run, t, verifyContents) == CorpusBinding(run, u, verifyContents)
  {
    hide Claims, SameClaims;
    SameFile(run.tables, t, u, CorpusMaterialization, CORPORA_FILE);
  }

  lemma BindingsKept(run: Run, t: Tree, u: Tree, invalid: seq<Step>, step: Step)
    requires Accepted(run.tables) && Cleared(run.tables, t, u, invalid) && IsInvalidList(run, t, invalid)
    requires Verifies(run, t, step) && (step == PublicFailure ==> !Stranded(run, t))
    ensures SameBindings(run, t, u, step)
  {
    hide Verifies, IsMatrixBound, IsCorpusBound, SameClaims, SameMarker, Coherent, DistinctNames, Anchored, Cleared,
         IsInvalidList, Stranded, MatrixBinding, SpecificationLineage, CorpusBinding;
    if BindsMatrix(step) {
      BindingTargetKept(run, t, u, invalid, step, MatrixLock);
      SameMatrix(run, t, u);
    }
    if BindsCorpora(step) {
      BindingTargetKept(run, t, u, invalid, step, CorpusMaterialization);
      SameCorpora(run, t, u, step.CorpusMaterialization?);
    }
  }

  lemma NonemptyClaims(tables: Tables)
    requires Coherent(tables)
    ensures forall c, p :: p in Claims(tables, c) ==> p != []
  {
    hide Claims;
    forall c, p | p in Claims(tables, c) ensures p != [] {
      var l :| 0 <= l < |Claims(tables, c)| && Claims(tables, c)[l] == p;
      assert IsClaim(tables, c, l);
    }
  }

  lemma PublicFailureIsBound()
    ensures IsMatrixBound(PublicFailure) && IsCorpusBound(PublicFailure)
  {
  }

  lemma AcceptedClaims(tables: Tables)
    requires Accepted(tables)
    ensures forall c, p :: p in Claims(tables, c) ==> p != []
  {
    hide Claims, Coherent, DistinctNames, Anchored;
    NonemptyClaims(tables);
  }

  /** What public-failure reads besides the files of its cone is kept. */
  lemma DispositionKept(run: Run, t: Tree, u: Tree, invalid: seq<Step>)
    requires Accepted(run.tables) && Cleared(run.tables, t, u, invalid) && IsInvalidList(run, t, invalid)
    requires Verifies(run, t, PublicFailure) && !Stranded(run, t)
    ensures SameDisposition(run, t, u, PublicFailure)
  {
    hide Verifies, Claims, IsMatrixBound, IsCorpusBound, Dependencies, ModeSteps, SameClaims, SameMarker, Coherent,
         DistinctNames, Takes, NamedResult;
    PublicFailureIsBound();
    BindingTargetKept(run, t, u, invalid, PublicFailure, MatrixLock);
    SameFile(run.tables, t, u, MatrixLock, MATRIX_LOCK_FILE);
    if NamedResult(run, t).Some? {
      var result := NamedResult(run, t).value;
      NamedResultFound(run, t);
      assert !Taken(run.tables, invalid, result);
      assert SameEntry(t, u, result);
    }
  }

  /** A public failure step that verifies names a result that is there. */
  lemma NamedResultFound(run: Run, t: Tree)
    requires Verifies(run, t, PublicFailure)
    ensures NamedResult(run, t).Some? && NamedResult(run, t).value != []
    ensures ReadFile(t, NamedResult(run, t).value).Some?
    ensures AssessPublicFailure(run, t).Assessed?
  {
    hide Verifies, Inventory, Dependencies, DependencyHashes, BindsMatrix, BindsCorpora, MatrixBinding, CorpusBinding,
         SpecificationLineage, Payload, ReviewItems, OwnFiles, IsDomain, CheckMarker;
    var bytes, marker := VerifiedMarker(run, t, PublicFailure);
    PayloadFields(run, t, PublicFailure, marker);
  }

  // ---------------------------------------------------------------- the same cone

  /** A step that verified keeps its dependencies and its cone, whatever becomes of its validity. */
  lemma {:induction false} ConeKept(run: Run, t: Tree, u: Tree, invalid: seq<Step>, step: Step)
    requires Cleared(run.tables, t, u, invalid) && IsInvalidList(run, t, invalid) && Verifies(run, t, step)
    ensures Dependencies(run, t, step).Some? && Dependencies(run, t, step) == Dependencies(run, u, step)
    ensures forall d :: d in Dependencies(run, t, step).value ==> Verifies(run, t, d)
    ensures forall c :: InCone(run, t, step, c) <==> InCone(run, u, step, c)
    decreases Rank(step)
  {
    hide Verifies, Dependencies, ModeSteps, InCone, Rank, CheckMarker, Cleared, IsInvalidList;
    VerifiesMeans(run, t, step);
    SameDependencies(run, t, u, invalid, step);
    forall d | d in Dependencies(run, t, step).value
      ensures forall c :: InCone(run, t, d, c) <==> InCone(run, u, d, c)
    {
      ConeKept(run, t, u, invalid, d);
    }
    SameConeStep(run, t, u, step);
  }

  /** The cone of a valid step is valid, so its claims and markers stay. */
  lemma SurroundingsKept(run: Run, t: Tree, u: Tree, invalid: seq<Step>, step: Step)
    requires Accepted(run.tables) && Cleared(run.tables, t, u, invalid) && IsInvalidList(run, t, invalid)
    requires Verifies(run, t, step)
    ensures SameCone(run, t, u, step) && SameClaims(run.tables, t, u, step) && SameMarker(run.tables, t, u, step)
  {
    hide Verifies, Dependencies, ModeSteps, SameClaims, SameMarker, Accepted, InCone, Taken, SameEntry, ClaimedBy,
         MarkerPath, NoDuplicates;
    ConeKept(run, t, u, invalid, step);
    forall c | InCone(run, t, step, c) ensures c !in invalid {
      ConeVerifies(run, t, step, c);
    }
    InOwnCone(run, t, step);
  }

  lemma CheckKept(run: Run, t: Tree, u: Tree, invalid: seq<Step>, step: Step)
    requires Accepted(run.tables) && Cleared(run.tables, t, u, invalid) && IsInvalidList(run, t, invalid)
    requires Verifies(run, t, step) && (step == PublicFailure ==> !Stranded(run, t))
    ensures CheckMarker(run, t, step) == CheckMarker(run, u, step)
  {
    hide Verifies, Claims, Dependencies, ModeSteps, SameClaims, SameMarker, Coherent, DistinctNames, InCone,
         CheckMarker, Stranded, Anchored, SameBindings, SameCone, Cleared, IsInvalidList;
    SurroundingsKept(run, t, u, invalid, step);
    BindingsKept(run, t, u, invalid, step);
    if step == PublicFailure { DispositionKept(run, t, u, invalid); }
    NonemptyClaims(run.tables);
    SameCheck(run, t, u, step);
  }

  // ---------------------------------------------------------------- who stays valid

  /** A step that verified before the moves verifies after them, unless it depends on a stranded public failure. */
  lemma {:induction false} ValidStaysValid(run: Run, t: Tree, u: Tree, invalid: seq<Step>, step: Step)
    requires Accepted(run.tables) && Cleared(run.tables, t, u, invalid) && IsInvalidList(run, t, invalid)
    requires Verifies(run, t, step) && !(Stranded(run, t) && InCone(run, t, step, PublicFailure))
    ensures Verifies(run, u, step)
    decreases Rank(step)
  {
    hide Verifies, Dependencies, ModeSteps, InCone, Rank, CheckMarker, Stranded, Accepted, Cleared, IsInvalidList;
    VerifiesMeans(run, t, step);
    VerifiesMeans(run, u, step);
    ConeKept(run, t, u, invalid, step);
    forall d | d in Dependencies(run, t, step).value
      ensures Verifies(run, u, d)
    {
      if InCone(run, t, d, PublicFailure) { ConeExtends(run, t, step, d, PublicFailure); }
      ValidStaysValid(run, t, u, invalid, d);
    }
    InOwnCone(run, t, step);
    CheckKept(run, t, u, invalid, step);
  }

  lemma SameConeStep(run: Run, t: Tree, u: Tree, step: Step)
    requires Dependencies(run, t, step) == Dependencies(run, u, step) && Dependencies(run, t, step).Some?
    requires forall d :: d in Dependencies(run, t, step).value ==>
               forall c :: InCone(run, t, d, c) <==> InCone(run, u, d, c)
    ensures forall c :: InCone(run, t, step, c) <==> InCone(run, u, step, c)
  {
    hide Dependencies, InCone;
    forall c ensures InCone(run, t, step, c) <==> InCone(run, u, step, c) {
      if c == step {
        InOwnCone(run, t, step);
        InOwnCone(run, u, step);
      } else if InCone(run, t, step, c) {
        var d := ConeSplits(run, t, step, c);
        ConeExtends(run, u, step, d, c);
      } else if InCone(run, u, step, c) {
        var d := ConeSplits(run, u, step, c);
        ConeExtends(run, t, step, d, c);
      }
    }
  }

  /** A step whose marker was moved aside does not verify. */
  lemma InvalidStaysInvalid(run: Run, u: Tree, step: Step)
    requires MarkerPath(run.tables, step) !in u
    ensures !Verifies(run, u, step)
  {
    hide Verifies, MarkerPath, Dependencies, ModeSteps, Payload;
    VerifiesMeans(run, u, step);
  }

  /** A stranded public failure step keeps its marker and its own files but loses a file it reads. */
  lemma StrandedBreaks(run: Run, t: Tree, u: Tree, invalid: seq<Step>)
    requires Accepted(run.tables) && Cleared(run.tables, t, u, invalid) && IsInvalidList(run, t, invalid)
    requires Stranded(run, t)
    ensures !Verifies(run, u, PublicFailure)
  {
    hide Verifies, Dependencies, Claims, SameClaims, SameMarker, MarkerPath, Coherent, DistinctNames, ModeSteps,
         Takes, Payload, Taken, CheckMarker;
    VerifiesMeans(run, u, PublicFailure);
    var s :| s in ModeSteps(run.mode) && !Verifies(run, t, s) && Feeds(run, t, s);
    assert s in invalid;
    LostFile(run, t, u, invalid, s);
  }

  /** Without the matrix lock, the corpora or the named result public-failure does not check out. */
  lemma LostFile(run: Run, t: Tree, u: Tree, invalid: seq<Step>, s: Step)
    requires Accepted(run.tables) && Cleared(run.tables, t, u, invalid) && IsInvalidList(run, t, invalid)
    requires Verifies(run, t, PublicFailure) && s in invalid && Feeds(run, t, s)
    ensures !CheckMarker(run, u, PublicFailure).Valid?
  {
    hide Verifies, Dependencies, Claims, SameClaims, SameMarker, MarkerPath, Coherent, DistinctNames, ModeSteps,
         Takes, CheckMarker, Inventory, DependencyHashes, OwnFiles, ReviewItems, SpecificationLineage;
    CheckNeeds(run, u);
    if s == MatrixLock {
      assert ClaimedBy(run.tables, MatrixLock, MATRIX_LOCK_FILE);
    } else if s == CorpusMaterialization {
      assert ClaimedBy(run.tables, CorpusMaterialization, CORPORA_FILE);
    } else {
      OwnFilesKept(run, t, u, invalid);
      assert Taken(run.tables, invalid, NamedResult(run, t).value);
    }
  }

  /** What a valid check of public-failure takes. */
  lemma CheckNeeds(run: Run, u: Tree)
    ensures CheckMarker(run, u, PublicFailure).Valid? ==>
              MatrixBinding(run, u).Some? && CorpusBinding(run, u, false).Some? && AssessPublicFailure(run, u).Assessed?
  {
    hide Inventory, Dependencies, DependencyHashes, MatrixBinding, CorpusBinding, SpecificationLineage, ModeSteps,
         AssessPublicFailure;
  }

  lemma OwnFilesKept(run: Run, t: Tree, u: Tree, invalid: seq<Step>)
    requires Accepted(run.tables) && Cleared(run.tables, t, u, invalid) && IsInvalidList(run, t, invalid)
    requires Verifies(run, t, PublicFailure)
    ensures OwnFiles(run, t) == OwnFiles(run, u)
  {
    hide Verifies, Dependencies, Claims, SameClaims, SameMarker, MarkerPath, Coherent, DistinctNames, ModeSteps,
         Taken;
    NonemptyClaims(run.tables);
    SameOwnFiles(run, t, u);
  }

  /** Every step with a stranded public failure in its cone is lost with it. */
  lemma {:induction false} LostWithStranded(run: Run, t: Tree, u: Tree, invalid: seq<Step>, step: Step)
    requires Accepted(run.tables) && Cleared(run.tables, t, u, invalid) && IsInvalidList(run, t, invalid)
    requires Stranded(run, t) && Verifies(run, t, step) && InCone(run, t, step, PublicFailure)
    ensures !Verifies(run, u, step)
    decreases Rank(step)
  {
    hide Verifies, Dependencies, ModeSteps, InCone, Rank, CheckMarker, Stranded, Accepted, Cleared, IsInvalidList;
    if step == PublicFailure {
      StrandedBreaks(run, t, u, invalid);
    } else {
      ConeKept(run, t, u, invalid, step);
      VerifiesMeans(run, u, step);
      var d := ConeSplits(run, t, step, PublicFailure);
      LostWithStranded(run, t, u, invalid, d);
    }
  }

  // ---------------------------------------------------------------- the theorems

  /** After a reconciliation the valid steps of the mode are those that were valid before, except those that depend
      on a stranded public failure step. */
  lemma VerdictsAfter(run: Run, t: Tree, u: Tree, invalid: seq<Step>, step: Step)
    requires Accepted(run.tables) && Cleared(run.tables, t, u, invalid) && IsInvalidList(run, t, invalid)
    requires step in ModeSteps(run.mode)
    ensures Verifies(run, u, step)
            <==> Verifies(run, t, step) && !(Stranded(run, t) && InCone(run, t, step, PublicFailure))
  {
    hide Verifies, Accepted, SameClaims, SameMarker, Stranded, MarkerPath, ModeSteps, InCone, Taken, SameEntry;
    if step in invalid {
      InvalidStaysInvalid(run, u, step);
    } else if Stranded(run, t) && InCone(run, t, step, PublicFailure) {
      LostWithStranded(run, t, u, invalid, step);
    } else {
      ValidStaysValid(run, t, u, invalid, step);
    }
  }

  /** The set of valid steps is the same before and after exactly when no public failure step is stranded. */
  lemma ValidSetKept(run: Run, t: Tree, root: Path, invalid: seq<Step>)
    requires Accepted(run.tables) && Rooted(t) && |root| == 2 && root[0] == "stale" && Fresh(t, root)
    requires IsInvalidList(run, t, invalid)
    ensures var u := MoveAll(t, Shifts(run.tables, root, invalid));
            (forall s :: s in ModeSteps(run.mode) ==> (Verifies(run, u, s) <==> Verifies(run, t, s)))
            <==> !Stranded(run, t)
  {
    hide Verifies, Dependencies, MoveAll, Shifts, Cleared, Coherent, DistinctNames, Anchored, ModeSteps, NoDuplicates,
         InCone, Feeds, Fresh;
    var u := MoveAll(t, Shifts(run.tables, root, invalid));
    MovesClear(run.tables, t, root, invalid);
    forall s | s in ModeSteps(run.mode)
      ensures Verifies(run, u, s)
              <==> Verifies(run, t, s) && !(Stranded(run, t) && InCone(run, t, s, PublicFailure))
    {
      VerdictsAfter(run, t, u, invalid, s);
    }
    if Stranded(run, t) {
      VerifiesMeans(run, t, PublicFailure);
      InOwnCone(run, t, PublicFailure);
    }
  }

  /** The markers of the mode left in place are exactly those of the steps that were valid. */
  lemma MarkersLeft(run: Run, t: Tree, root: Path, invalid: seq<Step>, step: Step)
    requires Accepted(run.tables) && Rooted(t) && |root| == 2 && root[0] == "stale" && Fresh(t, root)
    requires IsInvalidList(run, t, invalid) && step in ModeSteps(run.mode)
    ensures MarkerPath(run.tables, step) in MoveAll(t, Shifts(run.tables, root, invalid)) <==> Verifies(run, t, step)
  {
    hide Verifies, Dependencies, MoveAll, Shifts, Coherent, DistinctNames, Anchored, ModeSteps, NoDuplicates,
         SameClaims, MarkerPath, Taken, Fresh;
    MovesClear(run.tables, t, root, invalid);
    if Verifies(run, t, step) {
      var bytes, marker := VerifiedMarker(run, t, step);
    }
  }

  /** A second reconciliation would find nothing to move exactly when no public failure step was stranded. */
  lemma NothingLeftToMove(run: Run, t: Tree, root: Path, invalid: seq<Step>, again: Path, stillInvalid: seq<Step>)
    requires Accepted(run.tables) && Rooted(t) && |root| == 2 && root[0] == "stale" && Fresh(t, root)
    requires IsInvalidList(run, t, invalid)
    requires var u := MoveAll(t, Shifts(run.tables, root, invalid)); IsInvalidList(run, u, stillInvalid)
    ensures var u := MoveAll(t, Shifts(run.tables, root, invalid));
            Present(u, Shifts(run.tables, again, stillInvalid)) == [] <==> !Stranded(run, t)
  {
    hide Verifies, Dependencies, MoveAll, Shifts, Coherent, DistinctNames, Anchored, ModeSteps, NoDuplicates,
         SameClaims, SameMarker, MarkerPath, Claims, Stranded, Taken, Fresh, InCone, SameEntry;
    var u := MoveAll(t, Shifts(run.tables, root, invalid));
    MovesClear(run.tables, t, root, invalid);
    var shifts := Shifts(run.tables, again, stillInvalid);
    if Stranded(run, t) {
      StrandedMovesAgain(run, t, u, invalid, again, stillInvalid);
    } else {
      forall s | s in stillInvalid ensures s in invalid {
        VerdictsAfter(run, t, u, invalid, s);
      }
      forall i | 0 <= i < |shifts| ensures shifts[i].source !in u {
        SourceGone(run.tables, t, u, invalid, again, stillInvalid, i);
      }
      NothingPresent(u, shifts);
    }
  }

  lemma SourceGone(tables: Tables, t: Tree, u: Tree, invalid: seq<Step>, root: Path, steps: seq<Step>, i: int)
    requires Cleared(tables, t, u, invalid) && forall s :: s in steps ==> s in invalid
    requires 0 <= i < |Shifts(tables, root, steps)|
    ensures Shifts(tables, root, steps)[i].source !in u
  {
    hide SameClaims, SameMarker, MarkerPath, Claims, StepShifts, Shifts;
    var n, k := ShiftBelongs(tables, root, steps, i);
    ShiftOrigin(tables, root, steps[n], k);
    if k < |Claims(tables, steps[n])| {
      var claim := Claims(tables, steps[n])[k];
      assert claim in Claims(tables, steps[n]) && claim <= claim;
      assert ClaimedBy(tables, steps[n], claim);
    }
  }

  lemma StrandedMovesAgain(run: Run, t: Tree, u: Tree, invalid: seq<Step>, again: Path, stillInvalid: seq<Step>)
    requires Accepted(run.tables) && Cleared(run.tables, t, u, invalid) && IsInvalidList(run, t, invalid)
    requires Stranded(run, t) && IsInvalidList(run, u, stillInvalid)
    ensures Present(u, Shifts(run.tables, again, stillInvalid)) != []
  {
    hide Verifies, Dependencies, Cleared, Accepted, ModeSteps, NoDuplicates, MarkerPath, Claims, StepShifts, Shifts,
         Present;
    StrandedBreaks(run, t, u, invalid);
    VerifiesMeans(run, t, PublicFailure);
    SurroundingsKept(run, t, u, invalid, PublicFailure);
    hide SameCone, SameClaims, Stranded;
    var bytes, marker := VerifiedMarker(run, t, PublicFailure);
    assert PublicFailure in stillInvalid;
    var n :| 0 <= n < |stillInvalid| && stillInvalid[n] == PublicFailure;
    var k := |Claims(run.tables, PublicFailure)|;
    StepShiftCount(run.tables, again, PublicFailure);
    ShiftOrigin(run.tables, again, PublicFailure, k);
    var i := ShiftIncluded(run.tables, again, stillInvalid, n, k);
    assert Shifts(run.tables, again, stillInvalid)[i] in Present(u, Shifts(run.tables, again, stillInvalid));
  }

  /** Everything at or below a claim or the marker of an invalid step lands intact below the fresh directory,
      at a place that held nothing before and that no other moved path lands at. */
  lemma EveryPathLands(run: Run, t: Tree, root: Path, invalid: seq<Step>, step: Step, l: int, p: Path)
    requires Accepted(run.tables) && Rooted(t) && |root| == 2 && root[0] == "stale" && Fresh(t, root)
    requires NoDuplicates(invalid) && step in invalid
    requires 0 <= l <= |Claims(run.tables, step)| && PathAt(run.tables, step, l) <= p && p in t
    ensures var u := MoveAll(t, Shifts(run.tables, root, invalid));
            var landed := root + [run.tables.name(step)] + p;
            landed in u && u[landed] == t[p] && landed !in t && p !in u
    ensures forall other, q :: (other, q) != (step, p) ==>
              root + [run.tables.name(step)] + p != root + [run.tables.name(other)] + q
  {
    hide MoveAll, Shifts, Claims, StepShifts, Coherent, Anchored, MarkerPath;
    var name := run.tables.name(step);
    var n :| 0 <= n < |invalid| && invalid[n] == step;
    StepShiftCount(run.tables, root, step);
    ShiftOrigin(run.tables, root, step, l);
    var i := ShiftIncluded(run.tables, root, invalid, n, l);
    ShiftsOrderly(run.tables, root, invalid);
    LandedEntry(t, Shifts(run.tables, root, invalid), root, i, p);
    RemovedEntry(run.tables, t, root, invalid, step, l, p);
    var source := PathAt(run.tables, step, l);
    assert Relocate(source, root + [name] + source, p) == root + [name] + p by {
      assert p == source + p[|source|..];
    }
    assert root <= root + [name] + p;
    forall other, q | (other, q) != (step, p)
      ensures root + [name] + p != root + [run.tables.name(other)] + q
    {
      var x, y := root + [name] + p, root + [run.tables.name(other)] + q;
      assert x[|root|] == name && y[|root|] == run.tables.name(other);
      assert x[|root| + 1..] == p && y[|root| + 1..] == q;
    }
  }
}
