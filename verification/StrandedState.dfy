/** A state the program can leave behind on which reconciliation does not keep the valid steps: public-failure was
    recorded from a failed core-qualification result before core-qualification was recorded as failed. */
module StrandedState {
  import opened Results
  import opened Gates
  import opened StateTree
  import opened Markers
  import opened MerkleChain
  import opened Relocation
  import opened Reconcile
  import opened ReconcileProperties
  import opened RepositoryTables
  import opened SecondPass

  const DISPOSITION_FILE: Path := ["public-failure", "disposition.json"]
  const LOG_FILE: Path := ["logs", "public-failure.log"]
  const MARKER_FILE: Path := ["done", "public-failure.json"]
  const RESULT_FILE: Path := ["core-run", "qualification-summary.json"]

  const MARKER_BYTES: Bytes := [1]
  const RESULT_BYTES: Bytes := [2]

  function Spell(content: Bytes): string {
    seq(|content|, i requires 0 <= i < |content| => content[i] as char)
  }

  /** One failure, not reduced, found in the result of core-qualification. */
  function CoreDisposition(): Disposition {
    Disposition(CoreQualification, RESULT_FILE, FileIdentity(1, Spell(RESULT_BYTES)),
                [DispositionItem(Assessed(Passed), None)])
  }

  function ReadDisposition(own: Tree): Option<Disposition> {
    if DISPOSITION_FILE in own then Some(CoreDisposition()) else None
  }

  /** The marker recorded for the public failure step while no domain step is marked as failed. */
  function LoneMarker(): Marker {
    Marker(PublicFailure, "commit", "gpu", FullMode, Passed,
           map[DISPOSITION_FILE := FileIdentity(0, ""), LOG_FILE := FileIdentity(0, "")], map[], Some("lock"), [],
           Some(Lineage("/full.yaml", "", "")))
  }

  function StrandedRun(): Run {
    Run("commit", "gpu", FullMode, Repository(), Spell,
        bytes => if bytes == MARKER_BYTES then Some(MarkerDocument(LoneMarker())) else None,
        _ => MARKER_BYTES, (_, _) => Refused,
        bytes => if bytes == RESULT_BYTES then ReportsFailed else Unreadable,
        ReadDisposition, _ => Some("lock"), (_, _) => Assessed(Passed), _ => Some("lock"), (_, _, _) => Some([]),
        None, _ => Some(Specification("/full.yaml", [])))
  }

  function StrandedTree(): Tree {
    map[["logs"] := Directory, LOG_FILE := File([]),
        ["public-failure"] := Directory, DISPOSITION_FILE := File([]),
        ["core-run"] := Directory, RESULT_FILE := File(RESULT_BYTES),
        MATRIX_LOCK_FILE := File([]), LOCKED_SPECIFICATION_FILE := File([]), CORPORA_FILE := File([]),
        ["done"] := Directory, MARKER_FILE := File(MARKER_BYTES)]
  }

  lemma SpellingIsInjective()
    ensures forall a, b :: Spell(a) == Spell(b) ==> a == b
  {
    forall a, b | Spell(a) == Spell(b) ensures a == b {
      assert |Spell(a)| == |a| && |Spell(b)| == |b|;
      forall i | 0 <= i < |a| ensures a[i] == b[i] {
        assert Spell(a)[i] == Spell(b)[i];
      }
    }
  }

  // ---------------------------------------------------------------- the entries of the state

  lemma FirstComponents()
    ensures DISPOSITION_FILE[0][0] == 'p' && LOG_FILE[0][0] == 'l' && MARKER_FILE[0][0] == 'd'
    ensures RESULT_FILE[0][0] == 'c' && |RESULT_FILE[0]| == 8
    ensures |MATRIX_LOCK_FILE[0]| == 16 && |LOCKED_SPECIFICATION_FILE[0]| == 9 && |CORPORA_FILE[0]| == 12
  {
  }

  lemma Entries()
    ensures var t := StrandedTree();
            && ReadFile(t, DISPOSITION_FILE) == Some([]) && ReadFile(t, LOG_FILE) == Some([])
            && ReadFile(t, RESULT_FILE) == Some(RESULT_BYTES) && ReadFile(t, MARKER_FILE) == Some(MARKER_BYTES)
            && ReadFile(t, MATRIX_LOCK_FILE) == Some([]) && ReadFile(t, LOCKED_SPECIFICATION_FILE) == Some([])
            && ReadFile(t, CORPORA_FILE) == Some([])
  {
    FirstComponents();
  }

  lemma Directories()
    ensures var t := StrandedTree();
            forall name :: name in ["logs", "public-failure", "core-run", "done"] ==>
              [name] in t && t[[name]].Directory?
  {
    FirstComponents();
    assert ["logs"][0][0] == 'l' && ["public-failure"][0][0] == 'p' && ["done"][0][0] == 'd';
    assert |["core-run"][0]| == 8 && ["core-run"][0][0] == 'c';
  }

  lemma IsRooted()
    ensures Rooted(StrandedTree())
  {
    var t := StrandedTree();
    Directories();
    forall p, k | p in t && 0 < k < |p| ensures p[..k] in t && t[p[..k]].Directory? {
      assert |p| == 2 && p[..k] == [p[0]];
      assert p[0] in ["logs", "public-failure", "core-run", "done"];
    }
  }

  lemma OneMarkerFile(p: Path)
    requires p in StrandedTree() && |p| == 2 && p[0] == "done"
    ensures p == MARKER_FILE
  {
    FirstComponents();
    assert "done"[0] == 'd';
  }

  /** Only public-failure has a marker. */
  lemma OnlyMarker(s: Step)
    ensures MarkerPath(Repository(), PublicFailure) == MARKER_FILE
    ensures s != PublicFailure ==> MarkerPath(Repository(), s) !in StrandedTree()
  {
    hide Name, StrandedTree, OwnedBy, LogsOf;
    assert Name(PublicFailure) == "public-failure" by { PublicFailureName(); }
    assert MARKER_FILE[1] == "public-failure" + ".json";
    if MarkerPath(Repository(), s) in StrandedTree() {
      OneMarkerFile(MarkerPath(Repository(), s));
      NamesDecideMarker(s);
    }
  }

  lemma NamesDecideMarker(s: Step)
    requires MarkerPath(Repository(), s) == MarkerPath(Repository(), PublicFailure)
    ensures s == PublicFailure
  {
    hide OwnedBy, LogsOf, Name;
    forall a, b | Name(a) == Name(b) ensures a == b { NamesDistinct(a, b); }
    NamesDecideMarkers(Repository(), s, PublicFailure);
  }

  lemma PublicFailureName()
    ensures Name(PublicFailure) == "public-failure"
  {
  }

  // ---------------------------------------------------------------- the marker verifies

  lemma NoDomainStepFailed(run: Run, t: Tree, step: Step)
    requires forall s :: !SaysFailed(run, t, s)
    ensures Dependencies(run, t, step).Some?
    ensures Dependencies(run, t, PublicFailure) == Some([])
  {
    hide Candidates, SaysFailed;
    NoneFailed(run, t, DomainFailureSteps());
    NoneFailed(run, t, Candidates(run.mode));
  }

  lemma {:induction false} NoneFailed(run: Run, t: Tree, candidates: seq<Step>)
    requires forall s :: s in candidates ==> !SaysFailed(run, t, s)
    ensures FailedAmong(run, t, candidates) == []
  {
    hide SaysFailed;
    if candidates != [] {
      NoneFailed(run, t, candidates[1..]);
    }
  }

  lemma NobodyFailed()
    ensures forall s :: !SaysFailed(StrandedRun(), StrandedTree(), s)
  {
    hide StrandedTree, MarkerPath;
    forall s ensures !SaysFailed(StrandedRun(), StrandedTree(), s) {
      OnlyMarker(s);
      if s == PublicFailure { Entries(); }
    }
  }

  lemma Owns()
    ensures OwnedBy(PublicFailure) == [Owned(["public-failure"], true)] && LogsOf(PublicFailure) == [LOG_FILE]
  {
    assert "public-failure" + ".log" == "public-failure.log";
  }

  lemma LogCollected()
    ensures Collect(StrandedRun(), StrandedTree(), Owned(LOG_FILE, false)) == Some(map[LOG_FILE := FileIdentity(0, "")])
  {
    hide StrandedTree;
    Entries();
    Directories();
    assert forall k :: 0 < k < |LOG_FILE| ==> LOG_FILE[..k] == ["logs"];
    assert "logs" in ["logs", "public-failure", "core-run", "done"];
    assert Spell([]) == "";
  }

  /** The disposition is the only entry below its directory. */
  lemma DispositionAlone(p: Path)
    ensures p in StrandedTree() && ["public-failure"] < p <==> p == DISPOSITION_FILE
  {
    FirstComponents();
    if p in StrandedTree() && ["public-failure"] < p {
      assert p[0][0] == 'p';
    }
  }

  lemma DispositionCollected()
    ensures Collect(StrandedRun(), StrandedTree(), Owned(["public-failure"], true))
            == Some(map[DISPOSITION_FILE := FileIdentity(0, "")])
  {
    hide StrandedTree;
    var t, here := StrandedTree(), ["public-failure"];
    Entries();
    Directories();
    assert "public-failure" in ["logs", "public-failure", "core-run", "done"];
    forall p ensures p in t && here < p <==> p == DISPOSITION_FILE { DispositionAlone(p); }
    OneFileBelow(StrandedRun(), t, here, DISPOSITION_FILE);
    assert Spell([]) == "";
  }

  lemma InventoryMatches()
    ensures Inventory(StrandedRun(), StrandedTree(), PublicFailure) == Some(LoneMarker().inventory)
  {
    hide StrandedTree, Collect, CollectAll, OwnedBy, LogsOf, Repository;
    var run, t := StrandedRun(), StrandedTree();
    var first, second := Owned(["public-failure"], true), Owned(LOG_FILE, false);
    var x, y := map[DISPOSITION_FILE := FileIdentity(0, "")], map[LOG_FILE := FileIdentity(0, "")];
    Tabled();
    Entries();
    assert PresentLogs(t, [LOG_FILE]) == [second] by {
      assert [LOG_FILE][1..] == [];
      assert PresentLogs(t, []) == [];
    }
    LogCollected();
    DispositionCollected();
    FirstComponents();
    CollectTwo(run, t, first, second, x, y);
    assert [first] + [second] == [first, second];
    assert x + y == LoneMarker().inventory;
  }

  lemma Tabled()
    ensures Repository().owned(PublicFailure) == [Owned(["public-failure"], true)]
    ensures Repository().logs(PublicFailure) == [LOG_FILE]
  {
    Owns();
  }

  lemma DispositionReads()
    ensures StrandedRun().disposition(OwnFiles(StrandedRun(), StrandedTree())) == Some(CoreDisposition())
  {
    hide StrandedTree, OwnedBy, LogsOf, Claims;
    Entries();
    Owns();
    ClaimShape(PublicFailure, 0);
    assert Claims(Repository(), PublicFailure)[0] in Claims(Repository(), PublicFailure);
    assert ClaimedBy(Repository(), PublicFailure, DISPOSITION_FILE);
  }

  lemma DispositionAccepted()
    ensures AssessPublicFailure(StrandedRun(), StrandedTree()) == Assessed(Passed)
  {
    hide StrandedTree, OwnFiles;
    var items := CoreDisposition().items;
    Entries();
    DispositionReads();
    assert ReviewItems(StrandedRun(), ReadFile(StrandedTree(), MATRIX_LOCK_FILE), items) == Assessed(Passed) by {
      assert items[1..] == [];
    }
  }

  lemma PayloadMatches()
    ensures Payload(StrandedRun(), StrandedTree(), PublicFailure) == Ok(LoneMarker())
  {
    hide Inventory, Dependencies, DependencyHashes, StrandedTree, MarkerPath, AssessPublicFailure, FullModeSteps,
         Repository;
    var run, t := StrandedRun(), StrandedTree();
    Entries();
    OnlyMarker(MatrixLock);
    InventoryMatches();
    DispositionAccepted();
    NobodyFailed();
    NoDomainStepFailed(run, t, PublicFailure);
    FullPositions();
    NoHashes(run, t);
    assert Spell([]) == "";
  }

  lemma NoHashes(run: Run, t: Tree)
    ensures DependencyHashes(run, t, []) == Some(map[])
  {
    assert DependencyHashes(run, t, []).Some?;
    assert DependencyHashes(run, t, []).value == map[];
  }

  lemma MarkerVerifies()
    ensures Verifies(StrandedRun(), StrandedTree(), PublicFailure)
  {
    hide Payload, Dependencies, StrandedTree, MarkerPath, FullModeSteps, Repository, Verifies;
    var run, t := StrandedRun(), StrandedTree();
    Entries();
    OnlyMarker(PublicFailure);
    PayloadMatches();
    NobodyFailed();
    NoDomainStepFailed(run, t, PublicFailure);
    FullPositions();
    VerifiesMeans(run, t, PublicFailure);
  }

  // ---------------------------------------------------------------- the first pass raises nothing

  lemma {:induction false} NothingRaised(step: Step)
    ensures !Verify(StrandedRun(), StrandedTree(), step).Raised?
    decreases Rank(step)
  {
    hide Payload, Dependencies, StrandedTree, StrandedRun, MarkerPath, Verify, Verifies, Rank, Repository;
    var run, t := StrandedRun(), StrandedTree();
    RaisedMeans(run, t, step);
    NobodyFailed();
    NoDomainStepFailed(run, t, step);
    forall d | d in Dependencies(run, t, step).value ensures !Verify(run, t, d).Raised? {
      NothingRaised(d);
    }
    CheckRaisesNothing(step);
  }

  lemma CheckRaisesNothing(step: Step)
    ensures !CheckMarker(StrandedRun(), StrandedTree(), step).Raised?
  {
    hide Payload, StrandedTree, MarkerPath, Repository, Verifies;
    OnlyMarker(step);
    if step == PublicFailure { PayloadMatches(); }
  }

  // ---------------------------------------------------------------- the second pass raises

  /** A coherent state of the repository's own table, with an injective hash and a disposition that names the result
      of its source, whose first reconciliation raises nothing and finds public-failure valid without any
      dependency, although core-qualification, the step it was made from, is not recorded. */
  lemma StrandedHappens() returns (run: Run, t: Tree)
    ensures Accepted(run.tables) && run.tables == Repository() && Rooted(t)
    ensures forall a, b :: run.hash(a) == run.hash(b) ==> a == b
    ensures NamesItsSource(run, t) && SourceOf(run, t) == Some(CoreQualification)
    ensures Verifies(run, t, PublicFailure) && Dependencies(run, t, PublicFailure) == Some([])
    ensures forall s :: !Verify(run, t, s).Raised?
    ensures forall p :: p in t ==> p != [] && p[0] != "stale"
    ensures Stranded(run, t) && Orphaned(run, t)
  {
    hide Payload, Dependencies, StrandedTree, MarkerPath, Repository, Verify, Verifies, Accepted, Rooted, OwnFiles,
         Stranded;
    run, t := StrandedRun(), StrandedTree();
    RepositoryAccepted();
    SpellingIsInjective();
    IsRooted();
    NoStale();
    DispositionReads();
    MarkerVerifies();
    NobodyFailed();
    NoDomainStepFailed(run, t, PublicFailure);
    forall s ensures !Verify(run, t, s).Raised? { NothingRaised(s); }
    assert !ReadsMatrixLock(run, t);
    StrandedMeansUnmarked(run, t);
    OrphanedMeansUnmarked(run, t);
  }

  lemma NoStale()
    ensures forall p :: p in StrandedTree() ==> p != [] && p[0] != "stale"
  {
    FirstComponents();
    assert "stale"[0] == 's';
    assert "logs"[0] == 'l' && "public-failure"[0] == 'p' && "done"[0] == 'd' && "core-run"[0] == 'c';
    assert MATRIX_LOCK_FILE[0][0] == 'm' && LOCKED_SPECIFICATION_FILE[0][0] == 'f' && CORPORA_FILE[0][0] == 'c';
  }

  /** Whatever directory the first reconciliation of that state moves to, the second one raises. */
  lemma ReconcilingTwiceRaises() returns (run: Run, t: Tree)
    ensures Accepted(run.tables) && Rooted(t) && forall s :: !Verify(run, t, s).Raised?
    ensures forall root: Path, invalid ::
              |root| == 2 && root[0] == "stale" && IsInvalidList(run, t, invalid) ==>
                exists s :: s in ModeSteps(run.mode)
                            && Verify(run, MoveAll(t, Shifts(run.tables, root, invalid)), s).Raised?
  {
    hide Verify, Verifies, Accepted, Rooted, MoveAll, Shifts, Orphaned, Stranded, IsInvalidList, ModeSteps,
         Dependencies;
    run, t := StrandedHappens();
    forall root: Path, invalid | |root| == 2 && root[0] == "stale" && IsInvalidList(run, t, invalid)
      ensures exists s :: s in ModeSteps(run.mode)
                          && Verify(run, MoveAll(t, Shifts(run.tables, root, invalid)), s).Raised?
    {
      SecondPassRaises(run, t, root, invalid);
    }
  }
}
