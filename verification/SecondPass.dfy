/** The second reconciliation: when it is quiet, when it raises, and what that means for the dispositions the program
    writes. */
module SecondPass {
  import opened Results
  import opened Graphs
  import opened Gates
  import opened GateProperties
  import opened MemoizedSearch
  import opened StateTree
  import opened Markers
  import opened MerkleChain
  import opened Authority
  import opened Relocation
  import opened Reconcile
  import opened Frames
  import opened ReconcileProperties

  // ---------------------------------------------------------------- when the second pass raises

  lemma {:induction false} FewerFailures(run: Run, t: Tree, u: Tree, candidates: seq<Step>)
    requires forall x :: x in candidates && SaysFailed(run, u, x) ==> SaysFailed(run, t, x)
    ensures |FailedAmong(run, u, candidates)| <= |FailedAmong(run, t, candidates)|
  {
    hide SaysFailed;
    if candidates != [] {
      FewerFailures(run, t, u, candidates[1..]);
    }
  }

  lemma LookupStillSucceeds(run: Run, t: Tree, u: Tree, invalid: seq<Step>, step: Step)
    requires Cleared(run.tables, t, u, invalid) && Dependencies(run, t, step).Some?
    ensures Dependencies(run, u, step).Some?
  {
    hide SaysFailed, Cleared, FailedAmong, DomainFailureSteps, Candidates, StepDependencies;
    forall x ensures SaysFailed(run, u, x) ==> SaysFailed(run, t, x) {
      ClearedMarkers(run, t, u, invalid, x);
    }
    FewerFailures(run, t, u, DomainFailureSteps());
    FewerFailures(run, t, u, Candidates(run.mode));
  }

  /** The step the second pass cannot judge: public-failure verified, a step that owns the result its disposition
      names did not, and the missing matrix lock is not found out first. */
  ghost predicate Orphaned(run: Run, t: Tree) {
    && Verifies(run, t, PublicFailure)
    && (exists s :: s in ModeSteps(run.mode) && !Verifies(run, t, s) && OwnsNamedResult(run, t, s))
    && (Verifies(run, t, MatrixLock) || !ReadsMatrixLock(run, t))
  }

  /** Some failure of the disposition was reduced, so its request is compared with the matrix lock. */
  ghost predicate ReadsMatrixLock(run: Run, t: Tree) {
    match run.disposition(OwnFiles(run, t))
    case None => false
    case Some(disposition) => exists i :: 0 <= i < |disposition.items| && disposition.items[i].matrixLock.Some?
  }

  /** Items accepted with one matrix lock: with none they are refused exactly when one of them reads it. */
  lemma {:induction false} ItemsWithoutLock(run: Run, matrix: Option<Bytes>, items: seq<DispositionItem>)
    requires ReviewItems(run, matrix, items).Assessed?
    ensures ReviewItems(run, None, items)
            == if exists i :: 0 <= i < |items| && items[i].matrixLock.Some? then Refused else Assessed(Passed)
  {
    if items != [] {
      ItemsWithoutLock(run, matrix, items[1..]);
      assert items == [items[0]] + items[1..];
      if i :| 0 <= i < |items[1..]| && items[1..][i].matrixLock.Some? {
        assert items[i + 1].matrixLock.Some?;
      }
    }
  }

  /** After the moves the check of public-failure escapes exactly in the orphaned states. */
  lemma AssessmentAfter(run: Run, t: Tree, u: Tree, invalid: seq<Step>)
    requires Accepted(run.tables) && Cleared(run.tables, t, u, invalid) && IsInvalidList(run, t, invalid)
    requires Verifies(run, t, PublicFailure)
    ensures AssessPublicFailure(run, u).Escaped? <==> Orphaned(run, t)
  {
    hide Verifies, Dependencies, Claims, SameClaims, SameMarker, MarkerPath, Coherent, DistinctNames, ModeSteps,
         Takes, OwnFiles, ReviewItems, IsDomain;
    NamedResultFound(run, t);
    OwnFilesKept(run, t, u, invalid);
    var disposition := run.disposition(OwnFiles(run, t)).value;
    var result := disposition.result;
    MatrixLockAfter(run, t, u, invalid);
    ItemsWithoutLock(run, ReadFile(t, MATRIX_LOCK_FILE), disposition.items);
    if s :| s in ModeSteps(run.mode) && !Verifies(run, t, s) && OwnsNamedResult(run, t, s) {
      assert s in invalid;
      assert Taken(run.tables, invalid, result);
    } else {
      assert !Taken(run.tables, invalid, result);
      assert SameEntry(t, u, result);
    }
  }

  lemma MatrixLockAfter(run: Run, t: Tree, u: Tree, invalid: seq<Step>)
    requires Accepted(run.tables) && Cleared(run.tables, t, u, invalid) && IsInvalidList(run, t, invalid)
    ensures ReadFile(u, MATRIX_LOCK_FILE)
            == if Verifies(run, t, MatrixLock) then ReadFile(t, MATRIX_LOCK_FILE) else None
  {
    hide Verifies, Claims, SameClaims, SameMarker, MarkerPath, Coherent, DistinctNames, ModeSteps, Taken;
    BindingTargetsInEveryMode(run.mode);
    if Verifies(run, t, MatrixLock) {
      SameFile(run.tables, t, u, MatrixLock, MATRIX_LOCK_FILE);
    } else {
      assert ClaimedBy(run.tables, MatrixLock, MATRIX_LOCK_FILE);
    }
  }

  /** The check of public-failure after the moves: its inventory is untouched, so its assessment decides. */
  lemma PublicFailureCheckAfter(run: Run, t: Tree, u: Tree, invalid: seq<Step>)
    requires Accepted(run.tables) && Cleared(run.tables, t, u, invalid) && IsInvalidList(run, t, invalid)
    requires Verifies(run, t, PublicFailure)
    ensures CheckMarker(run, u, PublicFailure).Raised? <==> AssessPublicFailure(run, u).Escaped?
  {
    hide Verifies, Inventory, AssessPublicFailure, Dependencies, DependencyHashes, BindsMatrix, BindsCorpora,
         MatrixBinding, CorpusBinding, SpecificationLineage, ModeSteps, SameClaims, Claims, MarkerPath, Accepted,
         InCone, Cleared, IsInvalidList;
    var bytes, marker := VerifiedMarker(run, t, PublicFailure);
    PayloadFields(run, t, PublicFailure, marker);
    SurroundingsKept(run, t, u, invalid, PublicFailure);
    AcceptedClaims(run.tables);
    SameInventory(run, t, u, PublicFailure);
    VerifiesMeans(run, t, PublicFailure);
  }

  lemma CheckRaisesOnlyOrphaned(run: Run, t: Tree, u: Tree, invalid: seq<Step>, step: Step)
    requires Accepted(run.tables) && Cleared(run.tables, t, u, invalid) && IsInvalidList(run, t, invalid)
    requires step in ModeSteps(run.mode) && CheckMarker(run, u, step).Raised?
    ensures Orphaned(run, t)
  {
    hide Payload, Dependencies, ModeSteps, Verifies, SameClaims, SameMarker, Claims, MarkerPath, Stranded, Accepted,
         Orphaned, AssessPublicFailure, Taken, SameEntry;
    if step in invalid {
    } else if step == PublicFailure {
      PublicFailureCheckAfter(run, t, u, invalid);
      AssessmentAfter(run, t, u, invalid);
    } else {
      CheckKept(run, t, u, invalid, step);
      VerifiesMeans(run, t, step);
    }
  }

  /** Where the first pass raised nothing, the second raises only in the orphaned states. */
  lemma {:induction false} RaisesOnlyOrphaned(run: Run, t: Tree, u: Tree, invalid: seq<Step>, step: Step)
    requires Accepted(run.tables) && Cleared(run.tables, t, u, invalid) && IsInvalidList(run, t, invalid)
    requires forall s :: s in ModeSteps(run.mode) ==> !Verify(run, t, s).Raised?
    requires Verify(run, u, step).Raised?
    ensures Orphaned(run, t)
    decreases Rank(step)
  {
    hide Verify, Verifies, Dependencies, CheckMarker, ModeSteps, Rank, Cleared, IsInvalidList, Accepted, Orphaned;
    RaisedMeans(run, t, step);
    RaisedMeans(run, u, step);
    LookupStillSucceeds(run, t, u, invalid, step);
    if CheckMarker(run, u, step).Raised? {
      CheckRaisesOnlyOrphaned(run, t, u, invalid, step);
    } else {
      var d :| d in Dependencies(run, u, step).value && Verify(run, u, d).Raised?;
      RaisesOnlyOrphaned(run, t, u, invalid, d);
    }
  }

  /** In the orphaned states the second pass raises on public-failure itself. */
  lemma OrphanedRaises(run: Run, t: Tree, u: Tree, invalid: seq<Step>)
    requires Accepted(run.tables) && Cleared(run.tables, t, u, invalid) && IsInvalidList(run, t, invalid)
    requires Orphaned(run, t)
    ensures PublicFailure in ModeSteps(run.mode) && Verify(run, u, PublicFailure).Raised?
  {
    hide Dependencies, CheckMarker, ModeSteps, Cleared, IsInvalidList, Accepted, InCone, OwnsNamedResult,
         ReadsMatrixLock, AssessPublicFailure, Judge, Verify;
    VerifiesMeans(run, t, PublicFailure);
    ConeKept(run, t, u, invalid, PublicFailure);
    forall d | d in Dependencies(run, u, PublicFailure).value ensures Verifies(run, u, d) {
      BelowPublicFailure(run, t, d);
      ValidStaysValid(run, t, u, invalid, d);
    }
    PublicFailureCheckAfter(run, t, u, invalid);
    AssessmentAfter(run, t, u, invalid);
    LocalRaise(run, u, PublicFailure);
  }

  lemma BelowPublicFailure(run: Run, t: Tree, d: Step)
    requires Dependencies(run, t, PublicFailure).Some? && d in Dependencies(run, t, PublicFailure).value
    ensures !InCone(run, t, d, PublicFailure)
  {
    hide Dependencies, InCone, Rank;
    assert Rank(d) < Rank(PublicFailure);
    LowerInCone(run, t, d);
  }

  lemma LocalRaise(run: Run, t: Tree, step: Step)
    requires step in ModeSteps(run.mode) && Dependencies(run, t, step).Some?
    requires forall d :: d in Dependencies(run, t, step).value ==> Verifies(run, t, d)
    requires CheckMarker(run, t, step).Raised?
    ensures Verify(run, t, step).Raised?
  {
    hide Dependencies, CheckMarker, ModeSteps;
    JudgeAllValid(ChecksOf(run, t), step, Dependencies(run, t, step).value);
  }

  /** After a first pass without exceptions, the second pass raises exactly in the orphaned states. */
  lemma SecondPassRaises(run: Run, t: Tree, root: Path, invalid: seq<Step>)
    requires Accepted(run.tables) && Rooted(t) && |root| == 2 && root[0] == "stale" && Fresh(t, root)
    requires IsInvalidList(run, t, invalid)
    requires forall s :: s in ModeSteps(run.mode) ==> !Verify(run, t, s).Raised?
    ensures var u := MoveAll(t, Shifts(run.tables, root, invalid));
            (exists s :: s in ModeSteps(run.mode) && Verify(run, u, s).Raised?) <==> Orphaned(run, t)
  {
    hide Verify, Dependencies, MoveAll, Shifts, Cleared, Coherent, DistinctNames, Anchored, ModeSteps, NoDuplicates,
         Orphaned, Fresh;
    var u := MoveAll(t, Shifts(run.tables, root, invalid));
    MovesClear(run.tables, t, root, invalid);
    if s :| s in ModeSteps(run.mode) && Verify(run, u, s).Raised? {
      RaisesOnlyOrphaned(run, t, u, invalid, s);
    }
    if Orphaned(run, t) { OrphanedRaises(run, t, u, invalid); }
  }

  lemma OrphanedIsStranded(run: Run, t: Tree)
    requires Orphaned(run, t)
    ensures Stranded(run, t)
  {
    hide Verifies, ModeSteps, OwnsNamedResult, ReadsMatrixLock;
    var s :| s in ModeSteps(run.mode) && !Verifies(run, t, s) && OwnsNamedResult(run, t, s);
    assert Feeds(run, t, s);
  }

  /** The second pass neither raises nor moves anything exactly when no public failure step was stranded. */
  lemma SecondPassIsQuiet(run: Run, t: Tree, root: Path, invalid: seq<Step>, again: Path, stillInvalid: seq<Step>)
    requires Accepted(run.tables) && Rooted(t) && |root| == 2 && root[0] == "stale" && Fresh(t, root)
    requires IsInvalidList(run, t, invalid)
    requires forall s :: s in ModeSteps(run.mode) ==> !Verify(run, t, s).Raised?
    requires var u := MoveAll(t, Shifts(run.tables, root, invalid)); IsInvalidList(run, u, stillInvalid)
    ensures var u := MoveAll(t, Shifts(run.tables, root, invalid));
            && (forall s :: s in ModeSteps(run.mode) ==> !Verify(run, u, s).Raised?)
            && Present(u, Shifts(run.tables, again, stillInvalid)) == []
            <==> !Stranded(run, t)
  {
    hide Verify, MoveAll, Shifts, Coherent, DistinctNames, Anchored, ModeSteps, NoDuplicates, Orphaned, Stranded,
         Present, IsInvalidList, Fresh;
    SecondPassRaises(run, t, root, invalid);
    NothingLeftToMove(run, t, root, invalid, again, stillInvalid);
    if Orphaned(run, t) { OrphanedIsStranded(run, t); }
  }

  // ---------------------------------------------------------------- dispositions as the program writes them

  /** The disposition names the result of its own source step. */
  ghost predicate NamesItsSource(run: Run, t: Tree) {
    match run.disposition(OwnFiles(run, t))
    case None => true
    case Some(disposition) => disposition.result == ResultFile(disposition.source)
  }

  /** The domain step a disposition was made from. */
  ghost function SourceOf(run: Run, t: Tree): Option<Step> {
    match run.disposition(OwnFiles(run, t))
    case None => None
    case Some(disposition) => Some(disposition.source)
  }

  /** Such a public failure is stranded exactly when the step it was made from is not the one marked as failed. */
  lemma StrandedMeansUnmarked(run: Run, t: Tree)
    requires Accepted(run.tables) && NamesItsSource(run, t) && Verifies(run, t, PublicFailure)
    ensures SourceOf(run, t).Some?
    ensures Stranded(run, t) <==> Dependencies(run, t, PublicFailure) != Some([SourceOf(run, t).value])
  {
    hide Verifies, Dependencies, Claims, MarkerPath, Coherent, DistinctNames, ModeSteps, Takes, OwnFiles, ReviewItems,
         CheckMarker, ClaimedBy;
    NamedSourceIsDomain(run, t);
    var source := SourceOf(run, t).value;
    VerifiesMeans(run, t, PublicFailure);
    SourceInMode(run, source);
    if Dependencies(run, t, PublicFailure) == Some([source]) {
      assert source in Dependencies(run, t, PublicFailure).value;
      MarkedSourceFeeds(run, t, source);
    } else {
      if Verifies(run, t, source) { ValidSourceIsMarked(run, t, source); }
      OwnerTakes(run.tables, source);
      assert Feeds(run, t, source);
    }
  }

  /** Such a public failure makes the second pass raise exactly when, moreover, the missing matrix lock is not found
      out first. */
  lemma OrphanedMeansUnmarked(run: Run, t: Tree)
    requires Accepted(run.tables) && NamesItsSource(run, t) && Verifies(run, t, PublicFailure)
    ensures SourceOf(run, t).Some?
    ensures Orphaned(run, t)
            <==> Dependencies(run, t, PublicFailure) != Some([SourceOf(run, t).value])
                 && (Verifies(run, t, MatrixLock) || !ReadsMatrixLock(run, t))
  {
    hide Verifies, Dependencies, Claims, MarkerPath, Coherent, DistinctNames, ModeSteps, Takes, OwnFiles, ReviewItems,
         CheckMarker, ClaimedBy, ReadsMatrixLock, IsDomain;
    NamedSourceIsDomain(run, t);
    var source := SourceOf(run, t).value;
    VerifiesMeans(run, t, PublicFailure);
    SourceInMode(run, source);
    OwnerTakes(run.tables, source);
    if Verifies(run, t, source) { ValidSourceIsMarked(run, t, source); }
    assert source in [source];
    forall s | OwnsNamedResult(run, t, s) ensures s == source {
      OnlyOwnerTakes(run.tables, source, s);
    }
    assert OwnsNamedResult(run, t, source);
  }

  lemma NamedSourceIsDomain(run: Run, t: Tree)
    requires Verifies(run, t, PublicFailure)
    ensures SourceOf(run, t).Some? && IsDomain(SourceOf(run, t).value) && NamedResult(run, t).Some?
  {
    hide Verifies, ReviewItems, OwnFiles;
    NamedResultFound(run, t);
  }

  lemma SourceInMode(run: Run, source: Step)
    requires PublicFailure in ModeSteps(run.mode) && IsDomain(source)
    ensures source in ModeSteps(run.mode)
  {
    FullPositions();
    SmokeMembers(PublicFailure);
    SanitizerMembers(PublicFailure);
  }

  lemma OwnerTakes(tables: Tables, source: Step)
    requires Anchored(tables) && IsDomain(source)
    ensures Takes(tables, source, ResultFile(source))
  {
    hide Claims, ResultFile;
  }

  /** With the source marked as failed and valid, every step that feeds public-failure is valid. */
  lemma MarkedSourceFeeds(run: Run, t: Tree, source: Step)
    requires Accepted(run.tables) && NamesItsSource(run, t) && Verifies(run, t, PublicFailure)
    requires SourceOf(run, t) == Some(source) && IsDomain(source)
    requires Dependencies(run, t, PublicFailure) == Some([source]) && Verifies(run, t, source)
    ensures !Stranded(run, t)
  {
    hide Verifies, Dependencies, Claims, MarkerPath, ModeSteps, OwnFiles, IsMatrixBound, IsCorpusBound, Takes,
         Accepted, IsDomain, ResultFile;
    MatrixDomainBound(source);
    CorpusDomainBound(source);
    DomainIsNotPublicFailure(source);
    BindingVerifies(run, t, source, MatrixLock);
    BindingVerifies(run, t, source, CorpusMaterialization);
    forall s | OwnsNamedResult(run, t, s) ensures s == source {
      OnlyOwnerTakes(run.tables, source, s);
    }
  }

  lemma DomainIsNotPublicFailure(source: Step)
    requires IsDomain(source)
    ensures source != PublicFailure
  {
  }

  /** No other step takes the result of a domain step. */
  lemma OnlyOwnerTakes(tables: Tables, source: Step, s: Step)
    requires Accepted(tables) && IsDomain(source) && Takes(tables, s, ResultFile(source))
    ensures s == source
  {
    hide Claims, ResultFile, MarkerPath, Coherent, DistinctNames, IsDomain;
    OwnerTakes(tables, source);
    var k := TakingPath(tables, source, ResultFile(source));
    var l := TakingPath(tables, s, ResultFile(source));
    if s != source {
      SourcesApart(tables, source, k, s, l);
      PrefixesOverlap(PathAt(tables, source, k), PathAt(tables, s, l), ResultFile(source));
    }
  }

  /** A valid source step recomputes its outcome from the failed result, so its marker says failed. */
  lemma ValidSourceIsMarked(run: Run, t: Tree, source: Step)
    requires Accepted(run.tables) && NamesItsSource(run, t) && Verifies(run, t, PublicFailure)
    requires SourceOf(run, t) == Some(source) && IsDomain(source) && Verifies(run, t, source)
    ensures Dependencies(run, t, PublicFailure) == Some([source])
  {
    hide Verifies, Dependencies, Claims, MarkerPath, ModeSteps, OwnFiles, Coherent, DistinctNames, Inventory,
         DependencyHashes, BindsMatrix, BindsCorpora, MatrixBinding, CorpusBinding, SpecificationLineage, View,
         Payload, ReviewItems, CheckMarker, ResultFile, IsDomain, StepDependencies;
    var bytes, marker := VerifiedMarker(run, t, source);
    PayloadFields(run, t, source, marker);
    NamedResultFound(run, t);
    DomainIsNotPublicFailure(source);
    ViewOfResult(run, t, source);
    assert marker.outcome.Failed?;
    VerifiesMeans(run, t, PublicFailure);
    DomainIsConsulted(run, source);
    FailedIsDependency(run, t, PublicFailure, source);
    SingleFailure(run, t);
    assert Dependencies(run, t, PublicFailure).value == [source];
  }

  lemma ViewOfResult(run: Run, t: Tree, source: Step)
    requires Anchored(run.tables) && IsDomain(source)
    ensures ReadFile(View(run, t, source), ResultFile(source)) == ReadFile(t, ResultFile(source))
  {
    hide Claims, ResultFile, InCone, MarkerPath;
    InOwnCone(run, t, source);
    assert InView(run, t, source, ResultFile(source));
  }

  lemma DomainIsConsulted(run: Run, source: Step)
    requires IsDomain(source)
    ensures source in Consulted(PublicFailure, run.mode)
  {
  }

  lemma SingleFailure(run: Run, t: Tree)
    requires Dependencies(run, t, PublicFailure).Some?
    ensures |Dependencies(run, t, PublicFailure).value| <= 1
  {
    hide Candidates, StepDependencies, DomainFailureSteps;
  }
}
