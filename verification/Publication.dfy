/** The public validator of a marker chain, written independently of the recorder, and its agreement with it. */
module Publication {
  import opened Results
  import opened Graphs
  import opened Gates
  import opened GateProperties
  import opened StateTree
  import opened Markers
  import opened MerkleChain
  import opened Json
  import opened Text
  import opened Corpora

  // ---------------------------------------------------------------- inventory

  /** A component the validator accepts in a published path. */
  predicate PlainComponent(c: string) {
    c != ".." && c != "." && c != "" && forall i :: 0 <= i < |c| ==> c[i] != '\\' && c[i] != '\0'
  }

  predicate PlainPath(p: Path) {
    p != [] && forall i :: 0 <= i < |p| ==> PlainComponent(p[i])
  }

  /** A regular file below real directories, at a safe relative path. */
  predicate RegularFile(t: Tree, p: Path) {
    && PlainPath(p)
    && (forall k :: 0 < k < |p| ==> p[..k] in t && t[p[..k]].Directory?)
    && p in t && t[p].File?
  }

  function RetainedCollect(run: Run, t: Tree, item: Owned): Option<map<Path, FileIdentity>> {
    if item.directory then
      if item.path !in t || !t[item.path].Directory? then None
      else if exists p :: p in t && item.path < p && !t[p].Directory? && !RegularFile(t, p) then None
      else
        var files := map p | p in t && item.path < p && t[p].File? :: Identify(run, t[p].content);
        if files == map[] then None else Some(files)
    else if RegularFile(t, item.path) then Some(map[item.path := Identify(run, t[item.path].content)])
    else None
  }

  function RetainedCollectAll(run: Run, t: Tree, items: seq<Owned>): Option<map<Path, FileIdentity>> {
    if items == [] then Some(map[])
    else
      var before := RetainedCollectAll(run, t, items[..|items| - 1]);
      var last := RetainedCollect(run, t, items[|items| - 1]);
      if before.None? || last.None? || !(before.value.Keys !! last.value.Keys) then None
      else Some(before.value + last.value)
  }

  /** The inventory of a step, recomputed from the published files. */
  function RetainedInventory(run: Run, t: Tree, step: Step): Option<map<Path, FileIdentity>> {
    var logs := PresentLogs(t, run.tables.logs(step));
    if logs == [] then None else RetainedCollectAll(run, t, run.tables.owned(step) + logs)
  }

  /** Every file the inventory of a step records has a path the validator accepts. */
  ghost predicate PlainInventory(run: Run, t: Tree, step: Step) {
    forall p :: Recorded(run.tables, step, p) && ReadFile(t, p).Some? ==> PlainPath(p)
  }

  lemma RetainedCollectAgrees(run: Run, t: Tree, item: Owned)
    requires Rooted(t) && Collect(run, t, item).Some?
    ensures RetainedCollect(run, t, item) ==
            if forall p :: Covers(item, p) && ReadFile(t, p).Some? ==> PlainPath(p) then Collect(run, t, item) else None
  {
    hide PlainPath;
    if item.directory {
      assert forall p :: p in t && item.path < p ==> t[p].File? || t[p].Directory?;
    }
  }

  lemma {:induction false} RetainedCollectAllAgrees(run: Run, t: Tree, items: seq<Owned>)
    requires Rooted(t) && CollectAll(run, t, items).Some?
    ensures RetainedCollectAll(run, t, items) ==
            if forall i, p :: i in items && Covers(i, p) && ReadFile(t, p).Some? ==> PlainPath(p)
            then CollectAll(run, t, items) else None
  {
    hide PlainPath, Collect, RetainedCollect, Covers, ReadFile;
    if items != [] {
      var shorter, last := items[..|items| - 1], items[|items| - 1];
      assert items == shorter + [last];
      RetainedCollectAllAgrees(run, t, shorter);
      RetainedCollectAgrees(run, t, last);
    }
  }

  /** On a recorded inventory the validator recomputes the same one, and rejects it exactly when some recorded
      file has a path it does not accept. */
  lemma InventoryAgrees(run: Run, t: Tree, step: Step)
    requires Rooted(t) && Inventory(run, t, step).Some?
    ensures RetainedInventory(run, t, step) == if PlainInventory(run, t, step) then Inventory(run, t, step) else None
  {
    hide PlainPath, CollectAll, RetainedCollectAll, Covers, ReadFile;
    var owned, logs := run.tables.owned(step), PresentLogs(t, run.tables.logs(step));
    RetainedCollectAllAgrees(run, t, owned + logs);
    if PlainInventory(run, t, step) {
      forall i, p | i in owned + logs && Covers(i, p) && ReadFile(t, p).Some? ensures PlainPath(p) {
        ItemIsRecorded(run.tables, t, step, i, p);
      }
    } else {
      var p :| Recorded(run.tables, step, p) && ReadFile(t, p).Some? && !PlainPath(p);
      var i := RecordedItem(run.tables, t, step, p);
    }
  }

  lemma ItemIsRecorded(tables: Tables, t: Tree, step: Step, i: Owned, p: Path)
    requires i in tables.owned(step) + PresentLogs(t, tables.logs(step)) && Covers(i, p)
    ensures Recorded(tables, step, p)
  {
  }

  lemma RecordedItem(tables: Tables, t: Tree, step: Step, p: Path) returns (i: Owned)
    requires Recorded(tables, step, p) && ReadFile(t, p).Some?
    ensures i in tables.owned(step) + PresentLogs(t, tables.logs(step)) && Covers(i, p)
  {
    if p in tables.logs(step) {
      i := Owned(p, false);
    } else {
      i :| i in tables.owned(step) && Covers(i, p);
    }
  }

  // ---------------------------------------------------------------- the rebuilt marker

  /** What the validator is given besides the files: the published identity of the run and its decision. */
  datatype Decision = Decision(source: string, gpu: string, matrixLock: Option<string>,
                               outcomes: map<Step, Outcome>, failureStep: Option<Step>)

  function RetainedFile(t: Tree, p: Path): Option<Bytes> {
    if RegularFile(t, p) then Some(t[p].content) else None
  }

  /** The lineage named by the published matrix-lock marker, checked against the locked specification. */
  function RetainedLineage(run: Run, t: Tree): Option<Lineage> {
    var locked := RetainedFile(t, LOCKED_SPECIFICATION_FILE);
    var bytes := RetainedFile(t, MarkerPath(run.tables, MatrixLock));
    if locked.None? || bytes.None? then None
    else match run.decode(bytes.value)
      case Some(MarkerDocument(marker)) =>
        if marker.lineage.Some? && Absolute(marker.lineage.value.resolvedPath)
           && IsSha256(marker.lineage.value.sourceSha256)
           && marker.lineage.value.lockedSha256 == run.hash(locked.value)
        then marker.lineage else None
      case _ => None
  }

  function RetainedCorpora(t: Tree, parse: Bytes -> Option<Json>, str: Json -> string): Option<seq<CorpusIdentity>> {
    var bytes := RetainedFile(t, CORPORA_FILE);
    if bytes.None? then None else RetainedIdentities(parse(bytes.value), str)
  }

  function RetainedHashes(run: Run, t: Tree, deps: seq<Step>): Option<map<Step, string>> {
    if exists d :: d in deps && RetainedFile(t, MarkerPath(run.tables, d)).None? then None
    else Some(map d | d in deps :: run.hash(RetainedFile(t, MarkerPath(run.tables, d)).value))
  }

  ghost function PublishedGraph(decision: Decision): Step -> seq<Step> {
    PublishedEdges(decision.failureStep.GetOr(CoreQualification))
  }

  ghost predicate BoundTo(decision: Decision, step: Step, target: Step) {
    step == target || Reaches(PublishedGraph(decision), step, target)
  }

  /** The marker the validator expects for one step. */
  ghost function Rebuild(run: Run, t: Tree, decision: Decision, corpora: seq<CorpusIdentity>, lineage: Lineage,
                         step: Step): Option<Marker>
  {
    var deps := DirectStepDependencies(step, decision.failureStep);
    var hashes := if deps.None? then None else RetainedHashes(run, t, deps.value);
    var inventory := RetainedInventory(run, t, step);
    if hashes.None? || inventory.None? || step !in decision.outcomes then None
    else Some(Marker(step, decision.source, decision.gpu, FullMode, decision.outcomes[step], inventory.value,
                     hashes.value,
                     if BoundTo(decision, step, MatrixLock) then decision.matrixLock else None,
                     if BoundTo(decision, step, CorpusMaterialization) then corpora else [],
                     if BoundTo(decision, step, MatrixLock) then Some(lineage) else None))
  }

  /** The published marker of a step is exactly the rebuilt one. */
  ghost predicate MarkerAccepted(run: Run, t: Tree, decision: Decision, corpora: seq<CorpusIdentity>, lineage: Lineage,
                                 step: Step)
  {
    var bytes := RetainedFile(t, MarkerPath(run.tables, step));
    var expected := Rebuild(run, t, decision, corpora, lineage, step);
    bytes.Some? && expected.Some? && run.decode(bytes.value) == Some(MarkerDocument(expected.value))
  }

  ghost predicate ChainAccepted(run: Run, t: Tree, decision: Decision, steps: seq<Step>,
                                parse: Bytes -> Option<Json>, str: Json -> string)
  {
    var corpora, lineage := RetainedCorpora(t, parse, str), RetainedLineage(run, t);
    && decision.source != "" && decision.gpu != ""
    && corpora.Some? && lineage.Some?
    && forall s :: s in steps ==> MarkerAccepted(run, t, decision, corpora.value, lineage.value, s)
  }

  /** Walk the published steps and compare each marker with the one rebuilt from the files. */
  method ValidateMarkerChain(run: Run, t: Tree, decision: Decision, steps: seq<Step>,
                             parse: Bytes -> Option<Json>, str: Json -> string) returns (accepted: bool)
    requires PublicFailure in steps ==> decision.failureStep.Some? && IsDomain(decision.failureStep.value)
    ensures accepted <==> ChainAccepted(run, t, decision, steps, parse, str)
  {
    hide RetainedCorpora, RetainedLineage, MarkerAccepted, IsDomain;
    if decision.source == "" || decision.gpu == "" {
      return false;
    }
    var corpora, lineage := RetainedCorpora(t, parse, str), RetainedLineage(run, t);
    if corpora.None? || lineage.None? {
      return false;
    }
    for i := 0 to |steps|
      invariant forall j :: 0 <= j < i ==> MarkerAccepted(run, t, decision, corpora.value, lineage.value, steps[j])
    {
      var matches := CompareMarker(run, t, decision, corpora.value, lineage.value, steps[i]);
      if !matches {
        assert steps[i] in steps;
        return false;
      }
    }
    return true;
  }

  method IsBound(decision: Decision, step: Step, target: Step) returns (bound: bool)
    requires step.PublicFailure? ==> decision.failureStep.Some? && IsDomain(decision.failureStep.value)
    ensures bound <==> BoundTo(decision, step, target)
  {
    hide PublishedEdges, Reaches;
    if step == target {
      return true;
    }
    var reached := StepIsBoundTo(step, target, decision.failureStep);
    return reached.value;
  }

  method CompareMarker(run: Run, t: Tree, decision: Decision, corpora: seq<CorpusIdentity>, lineage: Lineage,
                       step: Step)
    returns (matches: bool)
    requires step.PublicFailure? ==> decision.failureStep.Some? && IsDomain(decision.failureStep.value)
    ensures matches <==> MarkerAccepted(run, t, decision, corpora, lineage, step)
  {
    hide RetainedHashes, RetainedInventory, RetainedFile, DirectStepDependencies, BoundTo, MarkerPath, IsDomain;
    var bytes := RetainedFile(t, MarkerPath(run.tables, step));
    if bytes.None? {
      return false;
    }
    var deps := DirectStepDependencies(step, decision.failureStep);
    var hashes := if deps.None? then None else RetainedHashes(run, t, deps.value);
    var matrixBound := IsBound(decision, step, MatrixLock);
    var corpusBound := IsBound(decision, step, CorpusMaterialization);
    var inventory := RetainedInventory(run, t, step);
    if hashes.None? || inventory.None? || step !in decision.outcomes {
      return false;
    }
    var expected := Marker(step, decision.source, decision.gpu, FullMode, decision.outcomes[step], inventory.value,
                           hashes.value,
                           if matrixBound then decision.matrixLock else None,
                           if corpusBound then corpora else [],
                           if matrixBound then Some(lineage) else None);
    assert Rebuild(run, t, decision, corpora, lineage, step) == Some(expected);
    matches := run.decode(bytes.value) == Some(MarkerDocument(expected));
  }
}
