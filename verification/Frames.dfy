/** Which parts of the state the verdict on a step depends on. */
module Frames {
  import opened Results
  import opened Gates
  import opened StateTree
  import opened Markers
  import opened MerkleChain

  ghost predicate SameEntry(t: Tree, u: Tree, p: Path) {
    (p in t <==> p in u) && (p in t ==> t[p] == u[p])
  }

  /** At, below or above a claim of the step. */
  predicate NearClaim(tables: Tables, step: Step, p: Path) {
    p != [] && exists c :: c in Claims(tables, step) && Overlap(c, p)
  }

  ghost predicate SameClaims(tables: Tables, t: Tree, u: Tree, step: Step) {
    forall p :: NearClaim(tables, step, p) ==> SameEntry(t, u, p)
  }

  ghost predicate SameMarker(tables: Tables, t: Tree, u: Tree, step: Step) {
    SameEntry(t, u, MarkerPath(tables, step))
  }

  /** The files that bound steps read besides their own. */
  ghost predicate SameBindings(run: Run, t: Tree, u: Tree, step: Step) {
    && (BindsMatrix(step) ==> MatrixBinding(run, t) == MatrixBinding(run, u))
    && (BindsMatrix(step) ==> SpecificationLineage(run, t) == SpecificationLineage(run, u))
    && (BindsCorpora(step) ==>
          CorpusBinding(run, t, step.CorpusMaterialization?) == CorpusBinding(run, u, step.CorpusMaterialization?))
  }

  /** The result that the disposition of the public failure step names. */
  function NamedResult(run: Run, t: Tree): Option<Path> {
    match run.disposition(OwnFiles(run, t))
    case None => None
    case Some(disposition) => Some(disposition.result)
  }

  /** What the public failure step reads besides the files of its cone. */
  ghost predicate SameDisposition(run: Run, t: Tree, u: Tree, step: Step) {
    step.PublicFailure? ==>
      && ReadFile(t, MATRIX_LOCK_FILE) == ReadFile(u, MATRIX_LOCK_FILE)
      && (NamedResult(run, t).Some? ==>
            ReadFile(t, NamedResult(run, t).value) == ReadFile(u, NamedResult(run, t).value))
  }

  /** Everything the payload of a step is computed from is the same in two states. */
  ghost predicate SameSurroundings(run: Run, t: Tree, u: Tree, step: Step) {
    SameCone(run, t, u, step) && SameBindings(run, t, u, step) && SameDisposition(run, t, u, step)
  }

  /** The cone of a step, its claims and its dependencies' markers are the same in two states. */
  ghost predicate SameCone(run: Run, t: Tree, u: Tree, step: Step) {
    && Dependencies(run, t, step) == Dependencies(run, u, step)
    && (forall c :: InCone(run, t, step, c) <==> InCone(run, u, step, c))
    && (forall c :: InCone(run, t, step, c) ==> SameClaims(run.tables, t, u, c))
    && (forall c :: InCone(run, t, step, c) && c != step ==> SameMarker(run.tables, t, u, c))
  }

  // ---------------------------------------------------------------- inventory

  ghost predicate SameNear(t: Tree, u: Tree, path: Path) {
    forall p :: p != [] && Overlap(path, p) ==> SameEntry(t, u, p)
  }

  lemma SameCollect(run: Run, t: Tree, u: Tree, item: Owned)
    requires SameNear(t, u, item.path) && item.path != []
    ensures Collect(run, t, item) == Collect(run, u, item)
  {
    forall k | 0 < k < |item.path| ensures SameEntry(t, u, item.path[..k]) {
      assert Overlap(item.path, item.path[..k]);
    }
    assert Overlap(item.path, item.path);
    forall p | item.path < p
      ensures p in t <==> p in u
      ensures p in t ==> t[p] == u[p]
    {
      assert Overlap(item.path, p);
      assert SameEntry(t, u, p);
    }
    var files := map p | p in t && item.path < p && t[p].File? :: Identify(run, t[p].content);
    var others := map p | p in u && item.path < p && u[p].File? :: Identify(run, u[p].content);
    assert files == others;
  }

  lemma {:induction false} SameCollectAll(run: Run, t: Tree, u: Tree, items: seq<Owned>)
    requires forall i :: i in items ==> SameNear(t, u, i.path) && i.path != []
    ensures CollectAll(run, t, items) == CollectAll(run, u, items)
  {
    hide Collect, SameNear;
    if items != [] {
      SameCollectAll(run, t, u, items[..|items| - 1]);
      SameCollect(run, t, u, items[|items| - 1]);
    }
  }

  lemma {:induction false} SameLogs(t: Tree, u: Tree, logs: seq<Path>)
    requires forall p :: p in logs ==> (p in t <==> p in u)
    ensures PresentLogs(t, logs) == PresentLogs(u, logs)
  {
    if logs != [] {
      SameLogs(t, u, logs[1..]);
    }
  }

  lemma SameInventory(run: Run, t: Tree, u: Tree, step: Step)
    requires SameClaims(run.tables, t, u, step)
    requires forall c :: c in Claims(run.tables, step) ==> c != []
    ensures Inventory(run, t, step) == Inventory(run, u, step)
  {
    hide CollectAll, Claims;
    var owned, logs := run.tables.owned(step), run.tables.logs(step);
    forall c | c in Claims(run.tables, step) ensures SameNear(t, u, c) && (c in t <==> c in u) {
      SameNearClaim(run.tables, t, u, step, c);
    }
    ClaimsOfParts(run.tables, step);
    SameLogs(t, u, logs);
    SameCollectAll(run, t, u, owned + PresentLogs(t, logs));
  }

  lemma SameNearClaim(tables: Tables, t: Tree, u: Tree, step: Step, c: Path)
    requires SameClaims(tables, t, u, step) && c in Claims(tables, step) && c != []
    ensures SameNear(t, u, c) && (c in t <==> c in u)
  {
    hide Claims;
    forall p | p != [] && Overlap(c, p) ensures SameEntry(t, u, p) {
      assert NearClaim(tables, step, p);
    }
    assert Overlap(c, c);
  }

  lemma ClaimsOfParts(tables: Tables, step: Step)
    ensures forall i :: i in tables.owned(step) ==> i.path in Claims(tables, step)
    ensures forall p :: p in tables.logs(step) ==> p in Claims(tables, step)
  {
    var owned, logs := tables.owned(step), tables.logs(step);
    forall i | i in owned ensures i.path in Claims(tables, step) {
      var k :| 0 <= k < |owned| && owned[k] == i;
      assert OwnedPaths(owned)[k] == i.path;
      assert Claims(tables, step)[k] == i.path;
    }
    forall p | p in logs ensures p in Claims(tables, step) {
      var k :| 0 <= k < |logs| && logs[k] == p;
      assert Claims(tables, step)[|owned| + k] == p;
    }
  }

  // ---------------------------------------------------------------- view and payload

  lemma SameView(run: Run, t: Tree, u: Tree, step: Step)
    requires SameCone(run, t, u, step)
    requires forall c, p :: p in Claims(run.tables, c) ==> p != []
    ensures View(run, t, step) == View(run, u, step)
  {
    hide InCone, Claims, Dependencies, SameBindings, InView, SameEntry;
    forall p ensures InView(run, t, step, p) <==> InView(run, u, step, p) {
      SameInView(run, t, u, step, p);
      SameInView(run, u, t, step, p);
    }
    forall p | InView(run, t, step, p) ensures SameEntry(t, u, p) {
      SeenEntry(run, t, u, step, p);
    }
    SameRestriction(run, t, u, step);
  }

  lemma SameRestriction(run: Run, t: Tree, u: Tree, step: Step)
    requires forall p :: InView(run, t, step, p) <==> InView(run, u, step, p)
    requires forall p :: InView(run, t, step, p) ==> SameEntry(t, u, p)
    ensures View(run, t, step) == View(run, u, step)
  {
    hide InView;
  }

  lemma SameInView(run: Run, t: Tree, u: Tree, step: Step, p: Path)
    requires forall c :: InCone(run, t, step, c) ==> InCone(run, u, step, c)
    ensures InView(run, t, step, p) ==> InView(run, u, step, p)
  {
    hide InCone, ClaimedBy, MarkerPath;
  }

  lemma SeenEntry(run: Run, t: Tree, u: Tree, step: Step, p: Path)
    requires forall c :: InCone(run, t, step, c) ==> SameClaims(run.tables, t, u, c)
    requires forall c :: InCone(run, t, step, c) && c != step ==> SameMarker(run.tables, t, u, c)
    requires forall c, q :: q in Claims(run.tables, c) ==> q != []
    requires InView(run, t, step, p)
    ensures SameEntry(t, u, p)
  {
    hide InCone, Claims, SameEntry;
    var c :| InCone(run, t, step, c) && (ClaimedBy(run.tables, c, p) || (c != step && p == MarkerPath(run.tables, c)));
    if ClaimedBy(run.tables, c, p) {
      var claim :| claim in Claims(run.tables, c) && claim <= p;
      assert Overlap(claim, p);
      assert NearClaim(run.tables, c, p);
    }
  }

  lemma SameHashes(run: Run, t: Tree, u: Tree, deps: seq<Step>)
    requires forall d :: d in deps ==> SameMarker(run.tables, t, u, d)
    ensures DependencyHashes(run, t, deps) == DependencyHashes(run, u, deps)
  {
    hide MarkerPath;
    forall d | d in deps
      ensures ReadFile(t, MarkerPath(run.tables, d)) == ReadFile(u, MarkerPath(run.tables, d))
    {
      assert SameMarker(run.tables, t, u, d);
    }
    if DependencyHashes(run, t, deps).Some? {
      assert DependencyHashes(run, t, deps).value == DependencyHashes(run, u, deps).value;
    } else {
      assert DependencyHashes(run, u, deps).None?;
    }
  }

  /** The payload of a step depends on nothing but its surroundings. */
  lemma SamePayload(run: Run, t: Tree, u: Tree, step: Step)
    requires SameSurroundings(run, t, u, step)
    requires forall c, p :: p in Claims(run.tables, c) ==> p != []
    ensures Payload(run, t, step) == Payload(run, u, step)
  {
    hide InCone, Claims, Dependencies, Inventory, AssessStep, DependencyHashes, BindsMatrix, BindsCorpora,
         MatrixBinding, CorpusBinding, SpecificationLineage, ModeSteps, SameClaims, SameMarker, Rank;
    hide Payload;
    InOwnCone(run, t, step);
    SameInventory(run, t, u, step);
    SameAssessment(run, t, u, step);
    SameDependencyHashes(run, t, u, step);
    SameResult(run, t, u, step);
  }

  /** The files of the public failure step are its own claims. */
  lemma SameOwnFiles(run: Run, t: Tree, u: Tree)
    requires SameClaims(run.tables, t, u, PublicFailure)
    requires forall c, p :: p in Claims(run.tables, c) ==> p != []
    ensures OwnFiles(run, t) == OwnFiles(run, u)
  {
    hide Claims;
    forall p | ClaimedBy(run.tables, PublicFailure, p) ensures SameEntry(t, u, p) {
      var claim :| claim in Claims(run.tables, PublicFailure) && claim <= p;
      assert Overlap(claim, p);
      assert NearClaim(run.tables, PublicFailure, p);
    }
  }

  lemma SameAssessment(run: Run, t: Tree, u: Tree, step: Step)
    requires SameCone(run, t, u, step) && SameDisposition(run, t, u, step)
    requires forall c, p :: p in Claims(run.tables, c) ==> p != []
    ensures AssessStep(run, t, step) == AssessStep(run, u, step)
  {
    hide SameClaims, View, Claims, InCone, Dependencies, OwnFiles, ReviewItems, ReviewResult, AssessDomain, IsDomain;
    if step.PublicFailure? {
      InOwnCone(run, t, step);
      SameOwnFiles(run, t, u);
    } else {
      SameView(run, t, u, step);
    }
  }

  lemma SameResult(run: Run, t: Tree, u: Tree, step: Step)
    requires Inventory(run, t, step) == Inventory(run, u, step)
    requires AssessStep(run, t, step) == AssessStep(run, u, step)
    requires Dependencies(run, t, step) == Dependencies(run, u, step)
    requires Dependencies(run, t, step).Some? ==>
               DependencyHashes(run, t, Dependencies(run, t, step).value)
               == DependencyHashes(run, u, Dependencies(run, t, step).value)
    requires SameBindings(run, t, u, step)
    ensures Payload(run, t, step) == Payload(run, u, step)
  {
    hide Dependencies, Inventory, AssessStep, DependencyHashes, BindsMatrix, BindsCorpora, MatrixBinding,
         CorpusBinding, SpecificationLineage, ModeSteps;
  }

  lemma SameDependencyHashes(run: Run, t: Tree, u: Tree, step: Step)
    requires SameCone(run, t, u, step)
    ensures Dependencies(run, t, step).Some? ==>
              DependencyHashes(run, t, Dependencies(run, t, step).value)
              == DependencyHashes(run, u, Dependencies(run, t, step).value)
  {
    hide InCone, Dependencies, DependencyHashes, SameMarker, SameClaims, Rank;
    if Dependencies(run, t, step).Some? {
      forall d | d in Dependencies(run, t, step).value ensures SameMarker(run.tables, t, u, d) {
        InOwnCone(run, t, d);
        ConeExtends(run, t, step, d, d);
        DependencyIsAnotherStep(run, t, step, d);
      }
      SameHashes(run, t, u, Dependencies(run, t, step).value);
    }
  }

  lemma DependencyIsAnotherStep(run: Run, t: Tree, step: Step, d: Step)
    requires Dependencies(run, t, step).Some? && d in Dependencies(run, t, step).value
    ensures d != step
  {
    hide Dependencies, Rank;
    assert Rank(d) < Rank(step);
  }

  /** The check of one marker, besides its own bytes, depends on nothing but the surroundings of its step. */
  lemma SameCheck(run: Run, t: Tree, u: Tree, step: Step)
    requires SameSurroundings(run, t, u, step) && SameMarker(run.tables, t, u, step)
    requires forall c, p :: p in Claims(run.tables, c) ==> p != []
    ensures CheckMarker(run, t, step) == CheckMarker(run, u, step)
  {
    hide Payload, SameSurroundings, MarkerPath, Claims;
    SamePayload(run, t, u, step);
  }
}
