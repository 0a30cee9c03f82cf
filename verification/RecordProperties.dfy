/** Recording a marker makes it verify, and disturbs nothing the step depends on. */
module RecordProperties {
  import opened Results
  import opened Gates
  import opened GateProperties
  import opened StateTree
  import opened Markers
  import opened MerkleChain
  import opened Authority
  import opened Reconcile
  import opened Frames
  import opened ReconcileProperties
  import opened SecondPass
  import opened StateEngine
  import opened Text

  /** The two states around the recording of one marker. */
  ghost predicate Wrote(run: Run, t: Tree, u: Tree, step: Step, content: Bytes) {
    u == WriteFile(t, MarkerPath(run.tables, step), content)
  }

  lemma WrittenEntry(run: Run, t: Tree, u: Tree, step: Step, content: Bytes, p: Path)
    requires Wrote(run, t, u, step, content)
    ensures p != [] && p[0] != "done" ==> SameEntry(t, u, p)
    ensures |p| == 2 && p != MarkerPath(run.tables, step) ==> SameEntry(t, u, p)
    ensures ReadFile(u, MarkerPath(run.tables, step)) == Some(content)
  {
    var target := MarkerPath(run.tables, step);
    assert forall k: nat :: 0 < k < |target| ==> target[..k] == ["done"];
  }

  lemma ClaimIsNotDone(tables: Tables, c: Step, l: int)
    requires Accepted(tables) && 0 <= l < |Claims(tables, c)|
    ensures Claims(tables, c)[l] != [] && Claims(tables, c)[l][0] != "done"
  {
    hide Claims, DistinctNames, Anchored;
    assert IsClaim(tables, c, l);
  }

  lemma ClaimsUndisturbed(run: Run, t: Tree, u: Tree, step: Step, content: Bytes, c: Step)
    requires Accepted(run.tables) && Wrote(run, t, u, step, content)
    ensures SameClaims(run.tables, t, u, c)
  {
    hide Claims, Wrote, SameEntry, Accepted;
    forall p | NearClaim(run.tables, c, p) ensures SameEntry(t, u, p) {
      var claim :| claim in Claims(run.tables, c) && Overlap(claim, p);
      var l :| 0 <= l < |Claims(run.tables, c)| && Claims(run.tables, c)[l] == claim;
      ClaimIsNotDone(run.tables, c, l);
      assert p[0] == claim[0];
      WrittenEntry(run, t, u, step, content, p);
    }
  }

  lemma OtherMarkersUndisturbed(run: Run, t: Tree, u: Tree, step: Step, content: Bytes, c: Step)
    requires Accepted(run.tables) && Wrote(run, t, u, step, content) && c != step
    ensures SameMarker(run.tables, t, u, c)
  {
    hide Wrote, DistinctNames, Coherent, Anchored;
    MarkersApart(run.tables, step, c);
    WrittenEntry(run, t, u, step, content, MarkerPath(run.tables, c));
  }

  lemma MatrixBoundRanks(step: Step)
    ensures BindsMatrix(step) ==> step == MatrixLock || Rank(MatrixLock) < Rank(step)
  {
  }

  lemma NotConsultedBelow(x: Step, step: Step, mode: Mode)
    requires Rank(x) < Rank(step) || x == step
    ensures step !in Consulted(x, mode)
  {
    hide Candidates, ModeSteps;
    CandidatesOf(mode, step);
  }

  /** Steps ranked up to the recorded one resolve to the same dependencies. */
  lemma DependenciesUndisturbed(run: Run, t: Tree, u: Tree, step: Step, content: Bytes, x: Step)
    requires Accepted(run.tables) && Wrote(run, t, u, step, content)
    requires Rank(x) < Rank(step) || x == step
    ensures Dependencies(run, t, x) == Dependencies(run, u, x)
  {
    hide Dependencies, Consulted, Wrote, Accepted, MarkerPath, Rank;
    NotConsultedBelow(x, step, run.mode);
    forall c | c in Consulted(x, run.mode) ensures SaysFailed(run, t, c) <==> SaysFailed(run, u, c) {
      OtherMarkersUndisturbed(run, t, u, step, content, c);
    }
    SameFailures(run, t, u, Consulted(x, run.mode));
    SameResolution(run, t, u, x);
  }

  /** The matrix-lock marker is not rewritten, or names the specification it was recorded with. */
  ghost predicate KeepsSpecification(run: Run, t: Tree, step: Step, content: Bytes) {
    step == MatrixLock ==>
      SpecificationOf(run, Some(content)) == SpecificationOf(run, ReadFile(t, MarkerPath(run.tables, MatrixLock)))
  }

  /** The disposition of public-failure does not name the marker being written as its result. */
  ghost predicate Unnamed(run: Run, t: Tree, step: Step) {
    NamedResult(run, t) != Some(MarkerPath(run.tables, step))
  }

  /** A disposition that names the result of its own source step names no marker. */
  lemma SourceResultIsNoMarker(run: Run, t: Tree, step: Step)
    requires NamesItsSource(run, t)
    ensures Unnamed(run, t, step)
  {
    assert "done"[0] == 'd' && "core-run"[0] == 'c' && "plugin-runs"[0] == 'p' && "mobilenet-runs"[0] == 'm';
  }

  lemma BindingsUndisturbed(run: Run, t: Tree, u: Tree, step: Step, content: Bytes, x: Step)
    requires Accepted(run.tables) && Wrote(run, t, u, step, content)
    requires Rank(x) < Rank(step) || (x == step && KeepsSpecification(run, t, step, content))
    ensures SameBindings(run, t, u, x)
  {
    hide Wrote, Coherent, DistinctNames, Claims, MarkerPath, Rank, BindsMatrix, BindsCorpora, SameClaims,
         SpecificationOf;
    ClaimsUndisturbed(run, t, u, step, content, MatrixLock);
    ClaimsUndisturbed(run, t, u, step, content, CorpusMaterialization);
    SameFile(run.tables, t, u, MatrixLock, MATRIX_LOCK_FILE);
    SameFile(run.tables, t, u, MatrixLock, LOCKED_SPECIFICATION_FILE);
    SameFile(run.tables, t, u, CorpusMaterialization, CORPORA_FILE);
    MatrixBoundRanks(x);
    WrittenEntry(run, t, u, step, content, MarkerPath(run.tables, step));
    if step != MatrixLock { OtherMarkersUndisturbed(run, t, u, step, content, MatrixLock); }
  }

  lemma DispositionUndisturbed(run: Run, t: Tree, u: Tree, step: Step, content: Bytes, x: Step)
    requires Accepted(run.tables) && Wrote(run, t, u, step, content) && Unnamed(run, t, step)
    ensures SameDisposition(run, t, u, x)
  {
    hide Wrote, Coherent, DistinctNames, Claims, MarkerPath, SameClaims, NamedResult;
    ClaimsUndisturbed(run, t, u, step, content, MatrixLock);
    SameFile(run.tables, t, u, MatrixLock, MATRIX_LOCK_FILE);
    if NamedResult(run, t).Some? { OtherFile(run, t, u, step, content, NamedResult(run, t).value); }
  }

  lemma OtherFile(run: Run, t: Tree, u: Tree, step: Step, content: Bytes, p: Path)
    requires Wrote(run, t, u, step, content) && p != MarkerPath(run.tables, step)
    ensures ReadFile(t, p) == ReadFile(u, p)
  {
    var target := MarkerPath(run.tables, step);
    assert forall k: nat :: 0 < k < |target| ==> target[..k] == ["done"];
  }

  /** Every lower-ranked step that verified still verifies, over the same cone. */
  lemma {:induction false} LowerStepsUndisturbed(run: Run, t: Tree, u: Tree, step: Step, content: Bytes, x: Step)
    requires Accepted(run.tables) && Wrote(run, t, u, step, content) && Unnamed(run, t, step)
    requires Rank(x) < Rank(step) && Verifies(run, t, x)
    ensures Verifies(run, u, x)
    ensures forall c :: InCone(run, t, x, c) <==> InCone(run, u, x, c)
    decreases Rank(x)
  {
    hide Verifies, Dependencies, ModeSteps, InCone, Rank, CheckMarker, Accepted, Wrote, Unnamed;
    VerifiesMeans(run, t, x);
    VerifiesMeans(run, u, x);
    DependenciesUndisturbed(run, t, u, step, content, x);
    forall d | d in Dependencies(run, t, x).value
      ensures Verifies(run, u, d) && forall c :: InCone(run, t, d, c) <==> InCone(run, u, d, c)
    {
      LowerStepsUndisturbed(run, t, u, step, content, d);
    }
    SameConeStep(run, t, u, x);
    CheckUndisturbed(run, t, u, step, content, x);
  }

  lemma CheckUndisturbed(run: Run, t: Tree, u: Tree, step: Step, content: Bytes, x: Step)
    requires Accepted(run.tables) && Wrote(run, t, u, step, content) && Unnamed(run, t, step)
    requires Rank(x) < Rank(step) && forall c :: InCone(run, t, x, c) <==> InCone(run, u, x, c)
    ensures CheckMarker(run, t, x) == CheckMarker(run, u, x)
  {
    hide Verifies, Dependencies, ModeSteps, InCone, Rank, CheckMarker, Accepted, Wrote, MarkerPath, SameSurroundings,
         SameMarker, Claims, Unnamed;
    SurroundingsUndisturbed(run, t, u, step, content, x);
    OtherMarkersUndisturbed(run, t, u, step, content, x);
    AcceptedClaims(run.tables);
    SameCheck(run, t, u, x);
  }

  lemma SurroundingsUndisturbed(run: Run, t: Tree, u: Tree, step: Step, content: Bytes, x: Step)
    requires Accepted(run.tables) && Wrote(run, t, u, step, content) && Unnamed(run, t, step)
    requires Rank(x) < Rank(step) || (x == step && KeepsSpecification(run, t, step, content))
    requires forall c :: InCone(run, t, x, c) <==> InCone(run, u, x, c)
    ensures SameSurroundings(run, t, u, x)
  {
    hide Dependencies, InCone, Rank, Coherent, DistinctNames, Anchored, Wrote, MarkerPath, SameClaims, SameMarker,
         SameBindings, SameDisposition, KeepsSpecification, Unnamed;
    DispositionUndisturbed(run, t, u, step, content, x);
    DependenciesUndisturbed(run, t, u, step, content, x);
    LowerInCone(run, t, x);
    forall c | InCone(run, t, x, c) ensures SameClaims(run.tables, t, u, c) {
      ClaimsUndisturbed(run, t, u, step, content, c);
    }
    forall c | InCone(run, t, x, c) && c != x ensures SameMarker(run.tables, t, u, c) {
      OtherMarkersUndisturbed(run, t, u, step, content, c);
    }
    BindingsUndisturbed(run, t, u, step, content, x);
  }

  /** Resolving a path gives a specification whose own absolute path resolves to it again. */
  ghost predicate Resolving(run: Run) {
    forall path :: run.specificationAt(path).Some? ==>
      var found := run.specificationAt(path).value;
      Absolute(found.resolvedPath) && run.specificationAt(found.resolvedPath) == Some(found)
  }

  /** A recorded matrix-lock marker names the specification that recording it used. */
  lemma RecordedSpecificationIsUsed(run: Run, t: Tree, marker: Marker)
    requires Resolving(run) && Payload(run, t, MatrixLock) == Ok(marker)
    requires run.decode(run.encode(marker)) == Some(MarkerDocument(marker))
    ensures KeepsSpecification(run, t, MatrixLock, run.encode(marker))
  {
    hide Inventory, AssessStep, Dependencies, DependencyHashes, MatrixBinding, CorpusBinding, ModeSteps, Absolute,
         MarkerPath, Payload, BindsCorpora, IsMatrixBound;
    PayloadFields(run, t, MatrixLock, marker);
    assert marker.lineage == SpecificationLineage(run, t);
  }

  /** What was recorded verifies: after a successful recording the step's marker, its inventory and its whole
      dependency chain check out. */
  lemma RecordedVerifies(run: Run, t: Tree, u: Tree, step: Step, marker: Marker)
    requires Accepted(run.tables) && step in ModeSteps(run.mode) && Resolving(run) && Unnamed(run, t, step)
    requires Dependencies(run, t, step).Some?
    requires forall d :: d in Dependencies(run, t, step).value ==> Verifies(run, t, d)
    requires Payload(run, t, step) == Ok(marker)
    requires run.decode(run.encode(marker)) == Some(MarkerDocument(marker))
    requires u == WriteFile(t, MarkerPath(run.tables, step), run.encode(marker))
    ensures Verifies(run, u, step)
  {
    hide Verifies, Dependencies, ModeSteps, InCone, Rank, Payload, Accepted, MarkerPath, WriteFile, Resolving, Unnamed,
         KeepsSpecification;
    var content := run.encode(marker);
    assert Wrote(run, t, u, step, content);
    hide Wrote;
    if step == MatrixLock { RecordedSpecificationIsUsed(run, t, marker); }
    OtherStepsKeep(run, t, step, content);
    DependenciesUndisturbed(run, t, u, step, content, step);
    forall d | d in Dependencies(run, t, step).value
      ensures Verifies(run, u, d) && forall c :: InCone(run, t, d, c) <==> InCone(run, u, d, c)
    {
      LowerStepsUndisturbed(run, t, u, step, content, d);
    }
    SameConeStep(run, t, u, step);
    SurroundingsUndisturbed(run, t, u, step, content, step);
    AcceptedClaims(run.tables);
    SamePayload(run, t, u, step);
    WrittenEntry(run, t, u, step, content, MarkerPath(run.tables, step));
    VerifiesMeans(run, u, step);
  }

  lemma OtherStepsKeep(run: Run, t: Tree, step: Step, content: Bytes)
    ensures step != MatrixLock ==> KeepsSpecification(run, t, step, content)
  {
  }
}
