/** The recorder and the public validator agree on every published chain. */
module PublicationProperties {
  import opened Results
  import opened Graphs
  import opened Gates
  import opened GateProperties
  import opened StateTree
  import opened Markers
  import opened MerkleChain
  import opened ReconcileProperties
  import opened Json
  import opened Text
  import opened Corpora
  import opened Publication

  /** The recorder's readers are those of a full-mode run: the corpus index is read as written, digests are
      SHA-256 values, the specification path is absolute, and marker names are plain file names. */
  ghost predicate FullRun(run: Run, parse: Bytes -> Option<Json>, str: Json -> string,
                          contents: (string, Json) -> bool) {
    && run.mode.FullMode?
    && (forall b, verify :: run.corpora(b, FullMode, verify) == CorpusIdentities(parse(b), FullMode, verify, contents))
    && ConvertsText(str)
    && (forall b :: IsSha256(run.hash(b)))
    && (forall path :: run.specificationAt(path).Some? ==> Absolute(run.specificationAt(path).value.resolvedPath))
    && (forall s :: PlainPath(MarkerPath(run.tables, s)))
  }

  /** The published decision repeats what the markers recorded. */
  ghost predicate Reports(run: Run, t: Tree, decision: Decision, status: PublicationStatus, steps: seq<Step>) {
    && ExpectedPublicationSteps(status, decision.failureStep) == Some(steps)
    && decision.source == run.source != "" && decision.gpu == run.gpu != ""
    && decision.matrixLock == MatrixBinding(run, t)
    && (forall s :: s in steps && Payload(run, t, s).Ok? ==>
          s in decision.outcomes && decision.outcomes[s] == Payload(run, t, s).value.outcome)
    && (decision.failureStep.Some? ==>
          decision.failureStep.value in decision.outcomes && decision.outcomes[decision.failureStep.value].Failed?)
  }

  // ---------------------------------------------------------------- reading the same bytes

  lemma RetainedFileAgrees(t: Tree, p: Path)
    requires Rooted(t) && PlainPath(p)
    ensures RetainedFile(t, p) == ReadFile(t, p)
  {
    hide PlainPath;
  }

  lemma FixedFilesArePlain()
    ensures PlainPath(CORPORA_FILE) && PlainPath(LOCKED_SPECIFICATION_FILE)
  {
    assert |CORPORA_FILE[0]| == 12 && |LOCKED_SPECIFICATION_FILE[0]| == 9;
  }

  lemma HashesAgree(run: Run, t: Tree, deps: seq<Step>)
    requires Rooted(t) && forall s :: PlainPath(MarkerPath(run.tables, s))
    requires DependencyHashes(run, t, deps).Some?
    ensures RetainedHashes(run, t, deps) == DependencyHashes(run, t, deps)
  {
    hide PlainPath, MarkerPath, RetainedFile, ReadFile;
    forall d | d in deps
      ensures RetainedFile(t, MarkerPath(run.tables, d)) == ReadFile(t, MarkerPath(run.tables, d))
    {
      RetainedFileAgrees(t, MarkerPath(run.tables, d));
    }
    assert RetainedHashes(run, t, deps).Some?;
    assert RetainedHashes(run, t, deps).value == DependencyHashes(run, t, deps).value;
  }

  // ---------------------------------------------------------------- the same dependencies

  lemma DomainPositions(domain: Step)
    requires IsDomain(domain)
    ensures FullPosition(CorpusMaterialization) <= FullPosition(domain)
            && FullPosition(MatrixLock) <= FullPosition(domain) && domain != GpuSmoke && !IsNonGate(domain)
  {
  }

  /** Every publication retains the markers of the matrix lock, the corpora and the failed step. */
  lemma PublicationHolds(status: PublicationStatus, failureStep: Option<Step>, steps: seq<Step>)
    requires ExpectedPublicationSteps(status, failureStep) == Some(steps)
    ensures MatrixLock in steps && CorpusMaterialization in steps
    ensures failureStep.Some? ==> failureStep.value in steps && IsDomain(failureStep.value)
    ensures forall s :: s in steps ==> !IsTerminal(s)
    ensures PublicFailure in steps ==> failureStep.Some?
  {
    hide FailedPublicationSteps, Candidates, FullPosition, IsNonGate;
    NonGates();
    PublishedMembers(status, failureStep, MatrixLock);
    PublishedMembers(status, failureStep, CorpusMaterialization);
    PublishedMembers(status, failureStep, PublicFailure);
    if failureStep.Some? {
      DomainPositions(failureStep.value);
      PublishedMembers(status, failureStep, failureStep.value);
    }
    forall s | s in steps ensures !IsTerminal(s) {
      PublishedMembers(status, failureStep, s);
    }
  }

  lemma SameDirectDependencies(run: Run, t: Tree, decision: Decision, status: PublicationStatus, steps: seq<Step>,
                               s: Step)
    requires Reports(run, t, decision, status, steps) && s in steps
    requires forall x :: x in steps ==> Verifies(run, t, x)
    ensures DirectStepDependencies(s, decision.failureStep) == Dependencies(run, t, s)
  {
    hide ExpectedPublicationSteps, Dependencies, StepDependencies, Payload, Verifies, MatrixBinding, IsDomain,
         SaysFailed, IsTerminal;
    PublicationHolds(status, decision.failureStep, steps);
    if s == PublicFailure {
      var f := decision.failureStep.value;
      var bytes, marker := VerifiedMarker(run, t, f);
      MarkerSaysFailed(run, t, f, bytes, marker);
      VerifiedResolves(run, t, s);
      OneFailedDomain(run, t, f);
    } else {
      FinalEvidenceIsTerminal(s);
      OrdinaryDependencies(run, t, s);
    }
  }

  lemma FinalEvidenceIsTerminal(s: Step)
    ensures s == FinalEvidence ==> IsTerminal(s)
  {
  }

  lemma VerifiedResolves(run: Run, t: Tree, s: Step)
    requires Verifies(run, t, s)
    ensures Dependencies(run, t, s).Some?
  {
    hide Dependencies, CheckMarker, ModeSteps;
    VerifiesMeans(run, t, s);
  }

  lemma MarkerSaysFailed(run: Run, t: Tree, s: Step, bytes: Bytes, marker: Marker)
    requires ReadFile(t, MarkerPath(run.tables, s)) == Some(bytes)
    requires run.decode(bytes) == Some(MarkerDocument(marker)) && marker.outcome.Failed?
    ensures SaysFailed(run, t, s)
  {
  }

  lemma OneFailedDomain(run: Run, t: Tree, f: Step)
    requires IsDomain(f) && SaysFailed(run, t, f) && Dependencies(run, t, PublicFailure).Some?
    ensures Dependencies(run, t, PublicFailure) == Some([f])
  {
    hide SaysFailed, Candidates, StepDependencies;
    var failed := FailedAmong(run, t, DomainFailureSteps());
    assert f in failed;
    assert failed[0] == f;
  }

  // ---------------------------------------------------------------- the same marker

  lemma SameCorpora(run: Run, t: Tree, parse: Bytes -> Option<Json>, str: Json -> string,
                    contents: (string, Json) -> bool, verify: bool)
    requires FullRun(run, parse, str, contents) && Rooted(t) && CorpusBinding(run, t, verify).Some?
    ensures RetainedCorpora(t, parse, str) == CorpusBinding(run, t, verify)
  {
    hide CorpusIdentities, RetainedIdentities, PlainPath, MarkerPath, IsSha256, Absolute;
    FixedFilesArePlain();
    RetainedFileAgrees(t, CORPORA_FILE);
    IdentitiesAgree(parse(ReadFile(t, CORPORA_FILE).value), verify, contents, str);
  }

  lemma SameLineage(run: Run, t: Tree, parse: Bytes -> Option<Json>, str: Json -> string,
                    contents: (string, Json) -> bool)
    requires FullRun(run, parse, str, contents) && Rooted(t) && Verifies(run, t, MatrixLock)
    ensures RetainedLineage(run, t) == SpecificationLineage(run, t)
    ensures SpecificationLineage(run, t).Some?
  {
    hide CorpusIdentities, PlainPath, MarkerPath, IsSha256, Absolute, Payload, Verifies, RegularFile, RetainedFile;
    FixedFilesArePlain();
    RetainedFileAgrees(t, LOCKED_SPECIFICATION_FILE);
    RetainedFileAgrees(t, MarkerPath(run.tables, MatrixLock));
    var bytes, marker := VerifiedMarker(run, t, MatrixLock);
    MatrixMarkerLineage(run, t, marker);
  }

  lemma MatrixMarkerLineage(run: Run, t: Tree, marker: Marker)
    requires Payload(run, t, MatrixLock) == Ok(marker)
    ensures marker.lineage == SpecificationLineage(run, t) && marker.lineage.Some?
  {
    hide Payload, Inventory, AssessStep, Dependencies, DependencyHashes, MatrixBinding, CorpusBinding,
         SpecificationLineage, IsMatrixBound, IsCorpusBound;
    PayloadFields(run, t, MatrixLock, marker);
  }

  lemma SameBound(decision: Decision, s: Step)
    requires decision.failureStep.Some? ==> IsDomain(decision.failureStep.value)
    requires !IsTerminal(s)
    ensures BoundTo(decision, s, MatrixLock) <==> BindsMatrix(s)
    ensures BoundTo(decision, s, CorpusMaterialization) <==> BindsCorpora(s)
  {
    hide PublishedEdges, Reaches, IsMatrixBound, IsCorpusBound;
    PublishedBindings(s, decision.failureStep.GetOr(CoreQualification));
  }

  /** The validator rebuilds exactly the recorded marker of a published step, unless a recorded path is not plain. */
  lemma RebuildAgrees(run: Run, t: Tree, decision: Decision, status: PublicationStatus, steps: seq<Step>, s: Step,
                      parse: Bytes -> Option<Json>, str: Json -> string, contents: (string, Json) -> bool)
    requires FullRun(run, parse, str, contents) && Rooted(t) && Reports(run, t, decision, status, steps) && s in steps
    requires forall x :: x in steps ==> Verifies(run, t, x)
    requires RetainedCorpora(t, parse, str).Some? && RetainedLineage(run, t).Some?
    ensures Payload(run, t, s).Ok?
    ensures Rebuild(run, t, decision, RetainedCorpora(t, parse, str).value, RetainedLineage(run, t).value, s) ==
            if PlainInventory(run, t, s) then Some(Payload(run, t, s).value) else None
  {
    hide ExpectedPublicationSteps, Dependencies, DirectStepDependencies, Payload, Verifies, IsTerminal, IsDomain,
         Inventory, AssessStep, DependencyHashes, RetainedHashes, RetainedInventory, PlainInventory, RetainedCorpora,
         RetainedLineage, BoundTo, BindsMatrix, BindsCorpora, MatrixBinding, CorpusBinding, SpecificationLineage,
         CorpusIdentities, PlainPath, MarkerPath, IsSha256, Absolute;
    PublicationHolds(status, decision.failureStep, steps);
    var bytes, marker := VerifiedMarker(run, t, s);
    PayloadFields(run, t, s, marker);
    SameDirectDependencies(run, t, decision, status, steps, s);
    HashesAgree(run, t, Dependencies(run, t, s).value);
    InventoryAgrees(run, t, s);
    SameBound(decision, s);
    SameLineage(run, t, parse, str, contents);
    if BindsCorpora(s) {
      SameCorpora(run, t, parse, str, contents, s.CorpusMaterialization?);
    }
  }

  /** A chain whose published steps all verify is accepted by the validator exactly when every recorded file has
      a path without backslash, NUL or dot components. */
  lemma RecorderAndValidatorAgree(run: Run, t: Tree, decision: Decision, status: PublicationStatus, steps: seq<Step>,
                                  parse: Bytes -> Option<Json>, str: Json -> string, contents: (string, Json) -> bool)
    requires FullRun(run, parse, str, contents) && Rooted(t) && Reports(run, t, decision, status, steps)
    requires forall x :: x in steps ==> Verifies(run, t, x)
    ensures ChainAccepted(run, t, decision, steps, parse, str) <==> forall s :: s in steps ==> PlainInventory(run, t, s)
  {
    hide ExpectedPublicationSteps, Payload, Verifies, RetainedCorpora, RetainedLineage, Rebuild, PlainInventory,
         PlainPath, MarkerPath, CorpusIdentities, IsSha256, Absolute, MatrixBinding, RetainedFile, CorpusBinding,
         SpecificationLineage;
    PublicationHolds(status, decision.failureStep, steps);
    SameLineage(run, t, parse, str, contents);
    CorporaAreBound(run, t);
    SameCorpora(run, t, parse, str, contents, true);
    forall s | s in steps
      ensures MarkerAccepted(run, t, decision, RetainedCorpora(t, parse, str).value, RetainedLineage(run, t).value, s)
              <==> PlainInventory(run, t, s)
    {
      var bytes, marker := VerifiedMarker(run, t, s);
      RetainedFileAgrees(t, MarkerPath(run.tables, s));
      RebuildAgrees(run, t, decision, status, steps, s, parse, str, contents);
    }
  }

  lemma CorporaAreBound(run: Run, t: Tree)
    requires Verifies(run, t, CorpusMaterialization)
    ensures CorpusBinding(run, t, true).Some?
  {
    hide Payload, Inventory, AssessStep, Dependencies, DependencyHashes, MatrixBinding, CorpusBinding,
         SpecificationLineage, IsMatrixBound, IsCorpusBound, Verifies;
    var bytes, marker := VerifiedMarker(run, t, CorpusMaterialization);
    PayloadFields(run, t, CorpusMaterialization, marker);
  }
}
