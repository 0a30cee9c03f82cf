/** When a marker can be recorded and when it verifies, told of the files, the hash and the readers alone. */
module MarkerCompleteness {
  import opened Results
  import opened Graphs
  import opened Gates
  import opened GateProperties
  import opened StateTree
  import opened Markers
  import opened MerkleChain
  import opened Authority
  import opened ReconcileProperties
  import opened MarkerMeaning

  // ---------------------------------------------------------------- the inventory

  /** Nothing above the path is a symbolic link. */
  ghost predicate PlainParents(t: Tree, p: Path) {
    forall k :: 0 < k < |p| && p[..k] in t ==> !t[p[..k]].Symlink?
  }

  /** A required path is there: a regular file, or a directory with regular files and otherwise only directories. */
  ghost predicate Collectable(t: Tree, item: Owned) {
    && PlainParents(t, item.path) && item.path in t
    && if !item.directory then t[item.path].File?
       else
         && t[item.path].Directory?
         && (forall p :: p in t && item.path < p ==> t[p].File? || t[p].Directory?)
         && (exists p :: p in t && item.path < p && t[p].File?)
  }

  /** Everything the step owns is there, and at least one of its logs; a log that is there is a regular file. */
  ghost predicate Complete(run: Run, t: Tree, step: Step) {
    && (forall item :: item in run.tables.owned(step) ==> Collectable(t, item))
    && (exists p :: p in run.tables.logs(step) && p in t)
    && (forall p :: p in run.tables.logs(step) && p in t ==> Collectable(t, Owned(p, false)))
  }

  lemma CollectSucceeds(run: Run, t: Tree, item: Owned)
    ensures Collect(run, t, item).Some? <==> Collectable(t, item)
  {
    var files := map p | p in t && item.path < p && t[p].File? :: Identify(run, t[p].content);
    if p :| p in t && item.path < p && t[p].File? { assert p in files; }
    if files != map[] {
      var p :| p in files;
    }
  }

  /** No path is accounted for by two of the items. */
  ghost predicate Apart(items: seq<Owned>) {
    forall i, j :: 0 <= i < j < |items| ==> !Overlap(items[i].path, items[j].path)
  }

  lemma {:induction false} CollectAllSucceeds(run: Run, t: Tree, items: seq<Owned>)
    requires Apart(items)
    ensures CollectAll(run, t, items).Some? <==> forall item :: item in items ==> Collectable(t, item)
  {
    hide Collect, Collectable, Overlap;
    if items != [] {
      var before, last := items[..|items| - 1], items[|items| - 1];
      assert items == before + [last];
      CollectAllSucceeds(run, t, before);
      CollectSucceeds(run, t, last);
      if CollectAll(run, t, before).Some? && Collect(run, t, last).Some? {
        DisjointKeys(run, t, before, last);
      }
    }
  }

  lemma DisjointKeys(run: Run, t: Tree, before: seq<Owned>, last: Owned)
    requires CollectAll(run, t, before).Some? && Collect(run, t, last).Some?
    requires forall i :: 0 <= i < |before| ==> !Overlap(before[i].path, last.path)
    ensures CollectAll(run, t, before).value.Keys !! Collect(run, t, last).value.Keys
  {
    hide Collect, CollectAll;
    forall p | p in CollectAll(run, t, before).value && p in Collect(run, t, last).value ensures false {
      CollectAllMeans(run, t, before, p);
      CollectMeans(run, t, last, p);
      var item :| item in before && Covers(item, p);
      CoversOverlap(item, last, p);
    }
  }

  lemma CoversOverlap(a: Owned, b: Owned, p: Path)
    requires Covers(a, p) && Covers(b, p)
    ensures Overlap(a.path, b.path)
  {
    assert a.path == p[..|a.path|] && b.path == p[..|b.path|];
  }

  lemma {:induction false} PresentLogsMean(t: Tree, logs: seq<Path>)
    ensures PresentLogs(t, logs) == [] <==> forall p :: p in logs ==> p !in t
    ensures forall item :: item in PresentLogs(t, logs) <==> !item.directory && item.path in logs && item.path in t
  {
    if logs != [] {
      PresentLogsMean(t, logs[1..]);
      assert logs == [logs[0]] + logs[1..];
    }
    assert forall item :: item in PresentLogs(t, logs) ==> item == Owned(item.path, false);
  }

  /** The present logs keep the distances of the logs. */
  lemma {:induction false} PresentLogsApart(t: Tree, logs: seq<Path>)
    requires forall i, j :: 0 <= i < j < |logs| ==> !Overlap(logs[i], logs[j])
    ensures Apart(PresentLogs(t, logs))
  {
    hide Overlap;
    if logs != [] {
      var rest := PresentLogs(t, logs[1..]);
      PresentLogsApart(t, logs[1..]);
      forall j | 0 <= j < |rest| ensures !Overlap(logs[0], rest[j].path) {
        assert rest[j] in rest;
        var k :| 0 <= k < |logs[1..]| && logs[1..][k] == rest[j].path;
        assert logs[k + 1] == rest[j].path;
      }
    }
  }

  /** With an accepted table the inventory of a step can be taken exactly when the step is complete. */
  lemma InventorySucceeds(run: Run, t: Tree, step: Step)
    requires Coherent(run.tables)
    ensures Inventory(run, t, step).Some? <==> Complete(run, t, step)
  {
    hide Collectable, CollectAll;
    var owned, logs := run.tables.owned(step), run.tables.logs(step);
    var present := PresentLogs(t, logs);
    PresentLogsMean(t, logs);
    OwnItemsApart(run, t, step);
    CollectAllSucceeds(run, t, owned + present);
    forall item | item in present ensures item == Owned(item.path, false) {
    }
    assert forall p :: p in logs && p in t ==> Owned(p, false) in present;
  }

  lemma OwnItemsApart(run: Run, t: Tree, step: Step)
    requires Coherent(run.tables)
    ensures Apart(run.tables.owned(step) + PresentLogs(t, run.tables.logs(step)))
  {
    hide Overlap, SafeClaim;
    var owned, logs := run.tables.owned(step), run.tables.logs(step);
    var present, claims := PresentLogs(t, logs), Claims(run.tables, step);
    forall i, j | 0 <= i < |claims| && 0 <= j < |claims| && i != j ensures !Overlap(claims[i], claims[j]) {
      assert IsClaim(run.tables, step, i) && IsClaim(run.tables, step, j);
    }
    forall i, j | 0 <= i < j < |logs| ensures !Overlap(logs[i], logs[j]) {
      assert claims[|owned| + i] == logs[i] && claims[|owned| + j] == logs[j];
    }
    PresentLogsApart(t, logs);
    forall i, j | 0 <= i < |owned| && 0 <= j < |present| ensures !Overlap(owned[i].path, present[j].path) {
      assert present[j] in present;
      var k :| 0 <= k < |logs| && logs[k] == present[j].path;
      assert claims[i] == owned[i].path && claims[|owned| + k] == logs[k];
    }
    forall i, j | 0 <= i < j < |owned| ensures !Overlap(owned[i].path, owned[j].path) {
      assert claims[i] == owned[i].path && claims[j] == owned[j].path;
    }
  }

  // ---------------------------------------------------------------- the outcome

  /** The files of the public failure step itself. */
  ghost predicate IsOwn(run: Run, t: Tree, own: Tree) {
    && (forall p :: p in own <==> p in t && exists c :: c in Claims(run.tables, PublicFailure) && c <= p)
    && forall p :: p in own ==> own[p] == t[p]
  }

  ghost predicate HasFile(t: Tree, p: Path) {
    p in t && t[p].File?
  }

  /** The failure was judged well by its own artifacts and, if it was reduced, against the matrix lock of the state. */
  ghost predicate ItemStands(run: Run, t: Tree, item: DispositionItem) {
    && item.own.Assessed?
    && (item.matrixLock.Some? ==>
          && HasFile(t, ["matrix.lock.json"])
          && run.lockIdentity(t[["matrix.lock.json"]].content) == item.matrixLock)
  }

  /** The comparison raises what the engine does not catch. */
  ghost predicate ItemEscapes(run: Run, t: Tree, item: DispositionItem) {
    || item.own.Escaped?
    || (item.own.Assessed? && item.matrixLock.Some? && HasFile(t, ["matrix.lock.json"])
        && run.lockIdentity(t[["matrix.lock.json"]].content).Some?
        && run.lockIdentity(t[["matrix.lock.json"]].content) != item.matrixLock)
  }

  /** The named result is the recorded file and says that it failed. */
  ghost predicate ResultStands(run: Run, t: Tree, disposition: Disposition) {
    && disposition.result != [] && HasFile(t, disposition.result)
    && var content := t[disposition.result].content;
       disposition.identity == FileIdentity(|content|, run.hash(content)) && run.reports(content) == ReportsFailed
  }

  ghost predicate ItemsStand(run: Run, t: Tree, items: seq<DispositionItem>, n: nat)
    requires n <= |items|
  {
    forall i :: 0 <= i < n ==> ItemStands(run, t, items[i])
  }

  lemma {:induction false} ItemsReviewed(run: Run, t: Tree, items: seq<DispositionItem>)
    ensures var review := ReviewItems(run, ReadFile(t, MATRIX_LOCK_FILE), items);
            && (review.Assessed? <==> ItemsStand(run, t, items, |items|))
            && (review.Escaped? <==> exists n :: 0 <= n < |items| && ItemsStand(run, t, items, n)
                                                 && ItemEscapes(run, t, items[n]))
  {
    hide ItemStands, ItemEscapes;
    if items != [] {
      var rest := items[1..];
      ItemsReviewed(run, t, rest);
      ItemReviewed(run, t, items);
      assert forall i :: 0 <= i < |rest| ==> rest[i] == items[i + 1];
      if n :| 0 <= n < |rest| && ItemsStand(run, t, rest, n) && ItemEscapes(run, t, rest[n])
              && ItemStands(run, t, items[0]) {
        forall i | 0 <= i < n + 1 ensures ItemStands(run, t, items[i]) {
          if i > 0 { assert items[i] == rest[i - 1]; }
        }
        assert ItemsStand(run, t, items, n + 1) && ItemEscapes(run, t, items[n + 1]);
      }
      if n :| 0 <= n < |items| && ItemsStand(run, t, items, n) && ItemEscapes(run, t, items[n]) {
        if n > 0 { assert ItemsStand(run, t, rest, n - 1) && ItemEscapes(run, t, rest[n - 1]); }
      }
      assert ItemsStand(run, t, items, 0);
    }
  }

  /** The first item decides unless it stands. */
  lemma ItemReviewed(run: Run, t: Tree, items: seq<DispositionItem>)
    requires items != []
    ensures var matrix := ReadFile(t, MATRIX_LOCK_FILE);
            var review := ReviewItems(run, matrix, items);
            && (ItemStands(run, t, items[0]) ==> review == ReviewItems(run, matrix, items[1..]))
            && (!ItemStands(run, t, items[0]) ==>
                  !review.Assessed? && (review.Escaped? <==> ItemEscapes(run, t, items[0])))
    ensures ItemStands(run, t, items[0]) ==> !ItemEscapes(run, t, items[0])
  {
  }

  /** Public-failure is accepted, and then as passed, exactly when its disposition can be read, was made from a domain
      step, every failure in it stands, and so does the domain result it names. */
  lemma PublicFailureAccepted(run: Run, t: Tree, own: Tree)
    requires IsOwn(run, t, own)
    ensures var assessment, disposition := AssessPublicFailure(run, t), run.disposition(own);
            && assessment != Assessed(Failed)
            && (assessment == Assessed(Passed) <==>
                  && disposition.Some? && IsDomain(disposition.value.source)
                  && ItemsStand(run, t, disposition.value.items, |disposition.value.items|)
                  && ResultStands(run, t, disposition.value)
                  && run.sameFailures(own, t[disposition.value.result].content).Assessed?)
  {
    hide ReviewItems, ItemsStand, ClaimedBy;
    OwnIsOwnFiles(run, t, own);
    if run.disposition(own).Some? { ItemsReviewed(run, t, run.disposition(own).value.items); }
  }

  /** And its check raises what the engine does not catch exactly when a failure does not match the matrix lock, or,
      with all failures in order, the named result is absent, another file, or not the failed one. */
  lemma PublicFailureEscapes(run: Run, t: Tree, own: Tree)
    requires IsOwn(run, t, own)
    ensures var disposition := run.disposition(own);
            AssessPublicFailure(run, t).Escaped? <==>
              && disposition.Some? && IsDomain(disposition.value.source)
              && var items := disposition.value.items;
                 || (exists n :: 0 <= n < |items| && ItemsStand(run, t, items, n) && ItemEscapes(run, t, items[n]))
                 || (ItemsStand(run, t, items, |items|)
                     && (ResultStands(run, t, disposition.value) ==>
                           run.sameFailures(own, t[disposition.value.result].content).Escaped?))
  {
    hide ReviewItems, ItemsStand, ClaimedBy, ItemEscapes;
    OwnIsOwnFiles(run, t, own);
    if run.disposition(own).Some? { ItemsReviewed(run, t, run.disposition(own).value.items); }
  }

  lemma OwnIsOwnFiles(run: Run, t: Tree, own: Tree)
    requires IsOwn(run, t, own)
    ensures own == OwnFiles(run, t)
  {
    hide Claims;
  }

  /** A domain step is recorded as its result says: passed, or failed with its own contract checked. */
  lemma DomainOutcome(run: Run, t: Tree, step: Step)
    requires Anchored(run.tables) && IsDomain(step)
    ensures AssessStep(run, t, step) == Assessed(Passed)
            <==> HasFile(t, ResultFile(step)) && run.reports(t[ResultFile(step)].content) == ReportsPassed
    ensures AssessStep(run, t, step) == Assessed(Failed)
            <==> HasFile(t, ResultFile(step)) && run.reports(t[ResultFile(step)].content) == ReportsFailed
                 && run.assess(step, View(run, t, step)).Assessed?
  {
    hide Claims, ResultFile, InCone, MarkerPath;
    InOwnCone(run, t, step);
    assert InView(run, t, step, ResultFile(step));
    assert ReadFile(View(run, t, step), ResultFile(step)) == ReadFile(t, ResultFile(step));
  }

  /** Of all other steps only final-evidence can be recorded as failed. */
  lemma OrdinaryOutcome(run: Run, t: Tree, step: Step)
    requires !IsDomain(step) && step != PublicFailure
    ensures AssessStep(run, t, step) == Assessed(Failed)
            <==> step == FinalEvidence && run.assess(step, View(run, t, step)) == Assessed(Failed)
    ensures AssessStep(run, t, step).Assessed? <==> run.assess(step, View(run, t, step)).Assessed?
  {
    hide View;
  }

  // ---------------------------------------------------------------- verification

  /** A step verifies exactly when it belongs to the mode, its dependencies verify, all its files are there, and its
      marker describes the state and the outcome the state is assessed with. */
  lemma VerifiesExactly(run: Run, t: Tree, step: Step)
    requires Coherent(run.tables)
    ensures Verifies(run, t, step) <==>
              && step in ModeSteps(run.mode) && Dependencies(run, t, step).Some?
              && (forall d :: d in Dependencies(run, t, step).value ==> Verifies(run, t, d))
              && Complete(run, t, step)
              && exists marker :: Holds(run, t, step, marker)
                                  && Describes(run, t, step, Dependencies(run, t, step).value, marker)
                                  && AssessStep(run, t, step) == Assessed(marker.outcome)
  {
    hide Verifies, Describes, Dependencies, AssessStep, ModeSteps, Complete, CheckMarker, Coherent, Payload;
    VerifiesMeans(run, t, step);
    InventorySucceeds(run, t, step);
    if Verifies(run, t, step) {
      var marker := MarkerMeans(run, t, step);
      InventoryTaken(run, t, step, marker);
    } else if step in ModeSteps(run.mode) && Dependencies(run, t, step).Some? && Complete(run, t, step) {
      forall marker
        ensures !(Holds(run, t, step, marker) && Describes(run, t, step, Dependencies(run, t, step).value, marker)
                  && AssessStep(run, t, step) == Assessed(marker.outcome)
                  && forall d :: d in Dependencies(run, t, step).value ==> Verifies(run, t, d))
      {
        if Describes(run, t, step, Dependencies(run, t, step).value, marker)
           && AssessStep(run, t, step) == Assessed(marker.outcome) {
          DescribedIsPayload(run, t, step, marker);
          HeldIsChecked(run, t, step, marker);
        }
      }
    }
  }

  lemma InventoryTaken(run: Run, t: Tree, step: Step, marker: Marker)
    requires Verifies(run, t, step)
    ensures Inventory(run, t, step).Some?
  {
    hide Verifies, Payload, Inventory;
    var bytes, m := VerifiedMarker(run, t, step);
    PayloadFields(run, t, step, m);
  }

  lemma HeldIsChecked(run: Run, t: Tree, step: Step, marker: Marker)
    requires Payload(run, t, step) == Ok(marker)
    ensures Holds(run, t, step, marker) ==> CheckMarker(run, t, step).Valid?
  {
    hide Payload;
  }

  /** A marker that describes the state is the payload built from it. */
  lemma DescribedIsPayload(run: Run, t: Tree, step: Step, marker: Marker)
    requires step in ModeSteps(run.mode) && Inventory(run, t, step).Some? && Dependencies(run, t, step).Some?
    requires Describes(run, t, step, Dependencies(run, t, step).value, marker)
    requires AssessStep(run, t, step) == Assessed(marker.outcome)
    ensures Payload(run, t, step) == Ok(marker)
  {
    hide Inventory, AssessStep, Dependencies, DependencyHashes, IsMatrixBound, IsCorpusBound, SpecificationLineage,
         ModeSteps, Recorded, NamesSpecification, Reaches, StaticEdges, ListsFiles, NamesMarkers;
    StaticMatrixBinding(step, run.mode);
    StaticCorpusBinding(step, run.mode);
    FilesAreInventory(run, t, step, marker.inventory);
    MarkersAreHashes(run, t, Dependencies(run, t, step).value, marker.dependencies);
    if BindsMatrix(step) {
      var path :| NamesSpecification(run, t, path, marker.lineage.value);
      NamedIsLineage(run, t, path, marker.lineage.value);
    }
  }

  lemma FilesAreInventory(run: Run, t: Tree, step: Step, inventory: map<Path, FileIdentity>)
    requires Inventory(run, t, step).Some? && ListsFiles(run, t, step, inventory)
    ensures Inventory(run, t, step) == Some(inventory)
  {
    hide Inventory, Recorded;
    var taken := Inventory(run, t, step).value;
    forall p ensures p in taken <==> p in inventory
             ensures p in taken ==> taken[p] == inventory[p]
    {
      InventoryMeans(run, t, step, p);
    }
    assert taken == inventory;
  }

  lemma MarkersAreHashes(run: Run, t: Tree, deps: seq<Step>, named: map<Step, string>)
    requires NamesMarkers(run, t, deps, named)
    ensures DependencyHashes(run, t, deps) == Some(named)
  {
    forall d | d in deps ensures ReadFile(t, MarkerPath(run.tables, d)).Some? {
      assert d in named;
    }
    assert DependencyHashes(run, t, deps).Some?;
    assert DependencyHashes(run, t, deps).value == named;
  }

  lemma NamedIsLineage(run: Run, t: Tree, path: string, lineage: Lineage)
    requires NamesSpecification(run, t, path, lineage)
    ensures SpecificationLineage(run, t) == Some(lineage)
  {
    hide RecordedSpecification, NamesPath;
    var recorded := RecordedSpecification(run, ReadFile(t, MarkerPath(run.tables, MatrixLock)));
    forall p ensures NamesPath(run, t, p) <==> recorded == Some(p) {
      LookedUpByRecorded(run, t, p);
    }
  }

  // ---------------------------------------------------------------- recording

  /** The files a bound step is bound to can be read. */
  ghost predicate Bindable(run: Run, t: Tree, step: Step) {
    && (Bound(run.mode, step, MatrixLock) ==>
          && (exists matrixLock :: NamesMatrix(run, t, matrixLock))
          && exists path, lineage :: NamesSpecification(run, t, path, lineage))
    && (Bound(run.mode, step, CorpusMaterialization) ==> exists corpora :: NamesCorpora(run, t, step, corpora))
  }

  /** The payload of a step can be built exactly when the step belongs to the mode and is complete, its outcome can
      be assessed, its dependencies have marker files, and the files it is bound to can be read. */
  lemma PayloadBuilds(run: Run, t: Tree, step: Step)
    requires Coherent(run.tables)
    ensures Payload(run, t, step).Ok? <==>
              && step in ModeSteps(run.mode) && Complete(run, t, step) && AssessStep(run, t, step).Assessed?
              && Dependencies(run, t, step).Some?
              && (forall d :: d in Dependencies(run, t, step).value ==> HasFile(t, MarkerPath(run.tables, d)))
              && Bindable(run, t, step)
  {
    hide Payload, Inventory, Complete, AssessStep, Dependencies, DependencyHashes, IsMatrixBound, IsCorpusBound,
         ModeSteps, Coherent, Reaches, StaticEdges, SpecificationLineage, MarkerPath, MatrixBinding, CorpusBinding,
         NamesMatrix, NamesCorpora, NamesSpecification;
    PayloadNeeds(run, t, step);
    InventorySucceeds(run, t, step);
    StaticMatrixBinding(step, run.mode);
    StaticCorpusBinding(step, run.mode);
    BindingsReadable(run, t, step);
    if Dependencies(run, t, step).Some? { HashesReadable(run, t, Dependencies(run, t, step).value); }
  }

  lemma PayloadNeeds(run: Run, t: Tree, step: Step)
    ensures Payload(run, t, step).Ok? <==>
              && step in ModeSteps(run.mode) && Inventory(run, t, step).Some? && AssessStep(run, t, step).Assessed?
              && Dependencies(run, t, step).Some?
              && DependencyHashes(run, t, Dependencies(run, t, step).value).Some?
              && (BindsMatrix(step) ==> MatrixBinding(run, t).Some? && SpecificationLineage(run, t).Some?)
              && (BindsCorpora(step) ==> CorpusBinding(run, t, step.CorpusMaterialization?).Some?)
  {
    hide Inventory, AssessStep, Dependencies, DependencyHashes, BindsMatrix, BindsCorpora, MatrixBinding,
         CorpusBinding, SpecificationLineage, ModeSteps;
  }

  lemma HashesReadable(run: Run, t: Tree, deps: seq<Step>)
    ensures DependencyHashes(run, t, deps).Some? <==> forall d :: d in deps ==> HasFile(t, MarkerPath(run.tables, d))
  {
    hide MarkerPath;
  }

  lemma BindingsReadable(run: Run, t: Tree, step: Step)
    ensures MatrixBinding(run, t).Some? <==> exists matrixLock :: NamesMatrix(run, t, matrixLock)
    ensures SpecificationLineage(run, t).Some? <==> exists path, lineage :: NamesSpecification(run, t, path, lineage)
    ensures CorpusBinding(run, t, step.CorpusMaterialization?).Some?
            <==> exists corpora :: NamesCorpora(run, t, step, corpora)
  {
    hide NamesSpecification, SpecificationLineage;
    if MatrixBinding(run, t).Some? { assert NamesMatrix(run, t, MatrixBinding(run, t).value); }
    if CorpusBinding(run, t, step.CorpusMaterialization?).Some? {
      assert NamesCorpora(run, t, step, CorpusBinding(run, t, step.CorpusMaterialization?).value);
    }
    if SpecificationLineage(run, t).Some? {
      var path := LineageNamesSpecification(run, t);
    }
    if path, lineage :| NamesSpecification(run, t, path, lineage) {
      NamedIsLineage(run, t, path, lineage);
    }
  }

  /** The check of a marker raises what the engine does not catch exactly when there is a marker to check and the
      outcome of a complete step of the mode escapes. */
  lemma CheckRaises(run: Run, t: Tree, step: Step)
    requires Coherent(run.tables)
    ensures CheckMarker(run, t, step).Raised? <==>
              && HasFile(t, MarkerPath(run.tables, step))
              && run.decode(t[MarkerPath(run.tables, step)].content).Some?
              && step in ModeSteps(run.mode) && Complete(run, t, step) && AssessStep(run, t, step).Escaped?
  {
    hide Inventory, Complete, AssessStep, Dependencies, DependencyHashes, IsMatrixBound, IsCorpusBound, ModeSteps,
         Coherent, SpecificationLineage, MarkerPath, MatrixBinding, CorpusBinding;
    InventorySucceeds(run, t, step);
  }
}
