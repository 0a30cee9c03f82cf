/** What a verified marker says, told of the files, the hash and the readers alone. */
module MarkerMeaning {
  import opened Results
  import opened Graphs
  import opened Gates
  import opened GateProperties
  import opened StateTree
  import opened Markers
  import opened MerkleChain

  /** The file at the marker path of the step holds this marker. */
  ghost predicate Holds(run: Run, t: Tree, step: Step, marker: Marker) {
    var path := ["done", run.tables.name(step) + ".json"];
    path in t && t[path].File? && run.decode(t[path].content) == Some(MarkerDocument(marker))
  }

  /** The inventory lists exactly the regular files at the recorded places, with their sizes and hashes. */
  ghost predicate ListsFiles(run: Run, t: Tree, step: Step, inventory: map<Path, FileIdentity>) {
    && (forall p :: p in inventory <==> Recorded(run.tables, step, p) && p in t && t[p].File?)
    && forall p :: p in inventory ==> inventory[p] == FileIdentity(|t[p].content|, run.hash(t[p].content))
  }

  /** The dependencies named are exactly these, each by the hash of its marker file. */
  ghost predicate NamesMarkers(run: Run, t: Tree, deps: seq<Step>, named: map<Step, string>) {
    && (forall d :: d in named <==> d in deps)
    && forall d :: d in named ==>
         var path := ["done", run.tables.name(d) + ".json"];
         path in t && t[path].File? && named[d] == run.hash(t[path].content)
  }

  /** The step is bound to the other: it is that step or depends on it. */
  ghost predicate Bound(mode: Mode, step: Step, target: Step) {
    step == target || Reaches(StaticEdges(mode), step, target)
  }

  /** The matrix-lock marker of the state names this absolute path. */
  ghost predicate NamesPath(run: Run, t: Tree, path: string) {
    exists marker :: Holds(run, t, MatrixLock, marker) && marker.lineage.Some?
                     && marker.lineage.value.resolvedPath == path && path != "" && path[0] == '/'
  }

  /** The specification is looked up by the path the caller gave, or else by the one the matrix-lock marker names,
      or else at the project's own. */
  ghost predicate LookedUpBy(run: Run, t: Tree, path: string) {
    match run.given
    case Some(given) => path == given
    case None => NamesPath(run, t, path) || (path == DEFAULT_SPECIFICATION && !exists p :: NamesPath(run, t, p))
  }

  /** The lineage names the specification found and its locked copy, each by the hash of its own content. */
  ghost predicate NamesSpecification(run: Run, t: Tree, path: string, lineage: Lineage) {
    var found := run.specificationAt(path);
    && LookedUpBy(run, t, path) && found.Some? && ["full.yaml"] in t && t[["full.yaml"]].File?
    && lineage == Lineage(found.value.resolvedPath, run.hash(found.value.content), run.hash(t[["full.yaml"]].content))
  }

  ghost predicate NamesMatrix(run: Run, t: Tree, matrixLock: string) {
    && ["matrix.lock.json"] in t && t[["matrix.lock.json"]].File?
    && run.matrixLock(t[["matrix.lock.json"]].content) == Some(matrixLock)
  }

  /** The corpora are read from the index; only corpus-materialization reads their contents again. */
  ghost predicate NamesCorpora(run: Run, t: Tree, step: Step, corpora: seq<CorpusIdentity>) {
    && ["corpora.json"] in t && t[["corpora.json"]].File?
    && run.corpora(t[["corpora.json"]].content, run.mode, step.CorpusMaterialization?) == Some(corpora)
  }

  lemma LookedUpByRecorded(run: Run, t: Tree, p: string)
    ensures NamesPath(run, t, p)
            <==> RecordedSpecification(run, ReadFile(t, MarkerPath(run.tables, MatrixLock))) == Some(p)
  {
    var recorded := ReadFile(t, MarkerPath(run.tables, MatrixLock));
    if RecordedSpecification(run, recorded) == Some(p) {
      var marker := run.decode(recorded.value).value.marker;
      assert Holds(run, t, MatrixLock, marker);
    }
  }

  /** The lineage a payload is built with. */
  lemma LineageNamesSpecification(run: Run, t: Tree) returns (path: string)
    requires SpecificationLineage(run, t).Some?
    ensures NamesSpecification(run, t, path, SpecificationLineage(run, t).value)
  {
    hide NamesPath, RecordedSpecification;
    var recorded := RecordedSpecification(run, ReadFile(t, MarkerPath(run.tables, MatrixLock)));
    path := if run.given.Some? then run.given.value else recorded.GetOr(DEFAULT_SPECIFICATION);
    forall p ensures NamesPath(run, t, p) <==> recorded == Some(p) {
      LookedUpByRecorded(run, t, p);
    }
    assert run.specificationAt(path) == SpecificationOf(run, ReadFile(t, MarkerPath(run.tables, MatrixLock)));
  }

  /** The marker describes the state field by field, but for the outcome. */
  ghost predicate Describes(run: Run, t: Tree, step: Step, deps: seq<Step>, marker: Marker) {
    && marker.step == step && marker.source == run.source && marker.gpu == run.gpu && marker.mode == run.mode
    && ListsFiles(run, t, step, marker.inventory)
    && NamesMarkers(run, t, deps, marker.dependencies)
    && (if Bound(run.mode, step, MatrixLock)
        then marker.matrixLock.Some? && NamesMatrix(run, t, marker.matrixLock.value)
             && marker.lineage.Some? && exists path :: NamesSpecification(run, t, path, marker.lineage.value)
        else marker.matrixLock.None? && marker.lineage.None?)
    && (if Bound(run.mode, step, CorpusMaterialization) then NamesCorpora(run, t, step, marker.corpora)
        else marker.corpora == [])
  }

  /** A payload describes the state. */
  lemma PayloadDescribes(run: Run, t: Tree, step: Step, marker: Marker)
    requires Payload(run, t, step) == Ok(marker)
    ensures Dependencies(run, t, step).Some? && Describes(run, t, step, Dependencies(run, t, step).value, marker)
    ensures AssessStep(run, t, step) == Assessed(marker.outcome)
  {
    hide Inventory, AssessStep, Dependencies, DependencyHashes, IsMatrixBound, IsCorpusBound, SpecificationLineage,
         ModeSteps, Payload, Recorded, NamesSpecification, Reaches, StaticEdges;
    PayloadFields(run, t, step, marker);
    forall p
      ensures p in marker.inventory <==> Recorded(run.tables, step, p) && p in t && t[p].File?
      ensures p in marker.inventory ==> marker.inventory[p] == FileIdentity(|t[p].content|, run.hash(t[p].content))
    {
      InventoryMeans(run, t, step, p);
    }
    DependencyHashesMean(run, t, Dependencies(run, t, step).value, marker.dependencies);
    StaticMatrixBinding(step, run.mode);
    StaticCorpusBinding(step, run.mode);
    if BindsMatrix(step) { var path := LineageNamesSpecification(run, t); }
  }

  /** A verified marker describes the state it stands in. */
  lemma MarkerMeans(run: Run, t: Tree, step: Step) returns (marker: Marker)
    requires Verifies(run, t, step)
    ensures Holds(run, t, step, marker) && Dependencies(run, t, step).Some?
    ensures Describes(run, t, step, Dependencies(run, t, step).value, marker)
    ensures AssessStep(run, t, step) == Assessed(marker.outcome)
  {
    hide Verifies, Payload, Describes, Dependencies, AssessStep;
    var bytes;
    bytes, marker := VerifiedMarker(run, t, step);
    PayloadDescribes(run, t, step, marker);
  }

  // ---------------------------------------------------------------- the specification

  /** One state and one caller look the specification up by one path. */
  lemma OnePath(r1: Run, r2: Run, t: Tree, p: string, q: string)
    requires r1.tables == r2.tables && r1.decode == r2.decode && r1.given == r2.given
    requires LookedUpBy(r1, t, p) && LookedUpBy(r2, t, q)
    ensures p == q
  {
    hide RecordedSpecification;
    var recorded := ReadFile(t, MarkerPath(r1.tables, MatrixLock));
    forall x ensures NamesPath(r1, t, x) <==> RecordedSpecification(r1, recorded) == Some(x) {
      LookedUpByRecorded(r1, t, x);
    }
    forall x ensures NamesPath(r2, t, x) <==> RecordedSpecification(r2, recorded) == Some(x) {
      LookedUpByRecorded(r2, t, x);
    }
    SameRecorded(r1, r2, recorded);
  }

  lemma SameRecorded(r1: Run, r2: Run, marker: Option<Bytes>)
    requires r1.decode == r2.decode
    ensures RecordedSpecification(r1, marker) == RecordedSpecification(r2, marker)
  {
  }

  /** No specification of one run has the hash of a different one of the other. */
  ghost predicate SourcesToldApart(r1: Run, r2: Run) {
    forall p, q | r1.specificationAt(p).Some? && r2.specificationAt(q).Some? ::
      var x, y := r1.specificationAt(p).value.content, r2.specificationAt(q).value.content;
      r1.hash(x) == r1.hash(y) ==> x == y
  }

  /** A matrix-bound step with the same marker bytes, verified in two runs and states, is bound to one specification:
      both runs find it at the same resolved path, with the same content and the same locked copy. */
  lemma SpecificationIsBound(r1: Run, t1: Tree, r2: Run, t2: Tree, step: Step)
    returns (path1: string, path2: string)
    requires r1.tables == r2.tables && r1.hash == r2.hash && r1.decode == r2.decode
    requires Verifies(r1, t1, step) && Verifies(r2, t2, step) && Bound(r1.mode, step, MatrixLock)
    requires ReadFile(t1, MarkerPath(r1.tables, step)) == ReadFile(t2, MarkerPath(r1.tables, step))
    requires CollisionFree(r1.hash, t1, t2) && SourcesToldApart(r1, r2)
    ensures LookedUpBy(r1, t1, path1) && LookedUpBy(r2, t2, path2)
    ensures r1.specificationAt(path1).Some? && r1.specificationAt(path1) == r2.specificationAt(path2)
    ensures ReadFile(t1, LOCKED_SPECIFICATION_FILE).Some?
    ensures ReadFile(t1, LOCKED_SPECIFICATION_FILE) == ReadFile(t2, LOCKED_SPECIFICATION_FILE)
  {
    hide Verifies, ListsFiles, NamesMarkers, NamesCorpora, NamesMatrix, LookedUpBy, Bound, Dependencies;
    var m1 := MarkerMeans(r1, t1, step);
    var m2 := MarkerMeans(r2, t2, step);
    assert m1 == m2;
    path1 :| NamesSpecification(r1, t1, path1, m1.lineage.value);
    path2 :| NamesSpecification(r2, t2, path2, m2.lineage.value);
    assert ReadFile(t1, LOCKED_SPECIFICATION_FILE) == ReadFile(t2, LOCKED_SPECIFICATION_FILE);
  }

  /** Editing the authored specification is noticed: no matrix-bound step still verifies. */
  lemma EditedSpecificationIsNoticed(run: Run, edited: Run, t: Tree, path: string, step: Step)
    requires Verifies(run, t, step) && Bound(run.mode, step, MatrixLock)
    requires edited == run.(specificationAt := edited.specificationAt)
    requires LookedUpBy(run, t, path) && run.specificationAt(path).Some?
    requires edited.specificationAt(path).Some? ==>
               run.hash(edited.specificationAt(path).value.content) != run.hash(run.specificationAt(path).value.content)
    ensures !Verifies(edited, t, step)
  {
    hide Verifies, ListsFiles, NamesMarkers, NamesCorpora, NamesMatrix, Bound, Dependencies, NamesPath;
    if Verifies(edited, t, step) {
      var m := MarkerMeans(run, t, step);
      var n := MarkerMeans(edited, t, step);
      var p :| NamesSpecification(run, t, p, m.lineage.value);
      var q :| NamesSpecification(edited, t, q, n.lineage.value);
      OnePath(run, edited, t, p, q);
      OnePath(run, run, t, path, p);
    }
  }

  // ---------------------------------------------------------------- the dependencies

  /** The marker file of the step is a JSON object that says it failed. */
  ghost predicate MarkedFailed(run: Run, t: Tree, step: Step) {
    var path := ["done", run.tables.name(step) + ".json"];
    && path in t && t[path].File?
    && ((exists marker :: run.decode(t[path].content) == Some(MarkerDocument(marker)) && marker.outcome == Failed)
        || run.decode(t[path].content) == Some(OtherDocument(true)))
  }

  ghost predicate MarkedCandidate(run: Run, t: Tree, s: Step) {
    s in ModeSteps(run.mode) && !IsNonGate(s) && MarkedFailed(run, t, s)
  }

  lemma SaysFailedMeans(run: Run, t: Tree, step: Step)
    ensures SaysFailed(run, t, step) <==> MarkedFailed(run, t, step)
  {
  }

  lemma {:induction false} FailedAmongMeans(run: Run, t: Tree, candidates: seq<Step>)
    requires NoDuplicates(candidates)
    ensures NoDuplicates(FailedAmong(run, t, candidates))
    ensures |FailedAmong(run, t, candidates)| > 1
            <==> exists a, b :: a != b && a in candidates && b in candidates
                                && MarkedFailed(run, t, a) && MarkedFailed(run, t, b)
  {
    hide MarkedFailed, SaysFailed;
    var failed := FailedAmong(run, t, candidates);
    FailedDistinct(run, t, candidates);
    forall x ensures SaysFailed(run, t, x) <==> MarkedFailed(run, t, x) { SaysFailedMeans(run, t, x); }
    if |failed| > 1 {
      assert failed[0] in failed && failed[1] in failed;
    }
  }

  lemma {:induction false} FailedDistinct(run: Run, t: Tree, candidates: seq<Step>)
    requires NoDuplicates(candidates)
    ensures NoDuplicates(FailedAmong(run, t, candidates))
  {
    hide SaysFailed;
    if candidates != [] {
      var rest := FailedAmong(run, t, candidates[1..]);
      FailedDistinct(run, t, candidates[1..]);
      assert forall x :: x in rest ==> x in candidates[1..];
      assert candidates[0] !in candidates[1..];
    }
  }

  /** Public-failure depends on the one domain step marked as failed, on nothing when there is none, and cannot be
      resolved when there are several. */
  lemma PublicFailureDependsOn(run: Run, t: Tree)
    ensures Dependencies(run, t, PublicFailure).None?
            <==> exists a, b :: a != b && IsDomain(a) && IsDomain(b)
                                && MarkedFailed(run, t, a) && MarkedFailed(run, t, b)
    ensures Dependencies(run, t, PublicFailure).Some? ==>
              forall d :: d in Dependencies(run, t, PublicFailure).value <==> IsDomain(d) && MarkedFailed(run, t, d)
  {
    hide MarkedFailed, SaysFailed, Candidates, FailedAmong;
    var domain := DomainFailureSteps();
    FailedAmongMeans(run, t, domain);
    forall x ensures SaysFailed(run, t, x) <==> MarkedFailed(run, t, x) { SaysFailedMeans(run, t, x); }
    var failed := FailedAmong(run, t, domain);
    assert forall x :: x in domain <==> IsDomain(x);
  }

  /** Final-evidence depends on every gate of the full mode when none is marked as failed, and otherwise on the gates
      up to the failed one and on public-failure; it cannot be resolved when several are marked. */
  lemma FinalEvidenceDependsOn(run: Run, t: Tree)
    requires run.mode.FullMode?
    ensures Dependencies(run, t, FinalEvidence).None?
            <==> exists a, b :: a != b && MarkedCandidate(run, t, a) && MarkedCandidate(run, t, b)
    ensures Dependencies(run, t, FinalEvidence).Some? ==>
              forall d :: d in Dependencies(run, t, FinalEvidence).value
                <==> if forall f :: !MarkedCandidate(run, t, f) then d != GpuSmoke && !IsNonGate(d)
                     else d == PublicFailure
                          || (d != GpuSmoke && !IsNonGate(d)
                              && exists f :: MarkedCandidate(run, t, f) && FullPosition(d) <= FullPosition(f))
  {
    hide MarkedFailed, SaysFailed, Candidates, FailedAmong, FullModeSteps, IsNonGate, FullPosition, Through,
         StepDependencies;
    var candidates := Candidates(run.mode);
    CandidatesAscend(run.mode);
    FailedAmongMeans(run, t, candidates);
    forall x
      ensures SaysFailed(run, t, x) <==> MarkedFailed(run, t, x)
      ensures x in candidates <==> x != GpuSmoke && !IsNonGate(x)
      ensures MarkedCandidate(run, t, x) <==> x in candidates && MarkedFailed(run, t, x)
    {
      SaysFailedMeans(run, t, x);
      CandidatesOf(run.mode, x);
    }
    var failed := FailedAmong(run, t, candidates);
    if |failed| == 1 {
      assert failed[0] in failed && failed[0] in candidates;
      forall d ensures d in Through(candidates, failed[0])
                       <==> d in candidates && FullPosition(d) <= FullPosition(failed[0])
      {
        ThroughMembers(FullPosition, candidates, failed[0], d);
      }
      assert forall f :: MarkedCandidate(run, t, f) <==> f in failed;
      assert forall f :: f in failed <==> f == failed[0];
    } else if |failed| == 0 {
      assert forall f :: MarkedCandidate(run, t, f) <==> f in failed;
    }
  }

  lemma CandidatesAscend(mode: Mode)
    requires mode.FullMode?
    ensures Ascending(FullPosition, Candidates(mode)) && NoDuplicates(Candidates(mode))
  {
    hide FullPosition, ModeSteps, Gating;
    FullModeAscends(mode);
    GatingAscends(FullPosition, ModeSteps(mode));
  }
}
