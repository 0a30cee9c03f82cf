/** Step markers: the payload that binds a step's files, its dependency markers, the matrix lock and the
    corpora, and what it means for a recorded marker to verify. */
module Markers {
  import opened Results
  import opened Gates
  import opened GateProperties
  import opened StateTree
  import opened Text
  import opened MemoizedSearch

  // ---------------------------------------------------------------- tables and context

  /** A path a step must produce: one regular file, or a nonempty directory. */
  datatype Owned = Owned(path: Path, directory: bool)

  /** Who owns which path, which logs close a step, and the name of each step. */
  datatype Tables = Tables(owned: Step -> seq<Owned>, logs: Step -> seq<Path>, name: Step -> string)

  datatype Outcome = Passed | Failed

  /** The assessment of a step's own outputs: an outcome, an exception the engine catches (`ValueError`,
      `OSError`), or one it does not (`InfrastructureError`). */
  datatype Assessment = Assessed(outcome: Outcome) | Refused | Escaped

  datatype FileIdentity = FileIdentity(bytes: nat, sha256: string)

  datatype CorpusIdentity = CorpusIdentity(kind: string, root: string, lock: string, lockSha256: string,
                                           materializerSha256: string, inventorySha256: string,
                                           referenceSha256: string)

  datatype Lineage = Lineage(resolvedPath: string, sourceSha256: string, lockedSha256: string)

  datatype Marker = Marker(step: Step, source: string, gpu: string, mode: Mode, outcome: Outcome,
                           inventory: map<Path, FileIdentity>, dependencies: map<Step, string>,
                           matrixLock: Option<string>, corpora: seq<CorpusIdentity>, lineage: Option<Lineage>)

  /** A parsed JSON object found at a marker path: a marker, or some other object of which only
      `outcome == "failed"` is ever looked at. */
  datatype Document = MarkerDocument(marker: Marker) | OtherDocument(failed: bool)

  /** The specification a run is qualified against. */
  datatype Specification = Specification(resolvedPath: string, content: Bytes)

  /** What the status field of a domain result says; a result that is no JSON object says nothing. */
  datatype Report = Unreadable | ReportsPassed | ReportsFailed | ReportsOther

  /** One failure record of a disposition: how its own artifacts were judged, and, for a reduced failure, the
      matrix lock its request names. */
  datatype DispositionItem = DispositionItem(own: Assessment, matrixLock: Option<string>)

  /** The disposition of a public failure: the domain step and the result it was made from. */
  datatype Disposition = Disposition(source: Step, result: Path, identity: FileIdentity, items: seq<DispositionItem>)

  /** Everything the engine is given besides the state tree.
      `assess` judges a step by the files claimed in its cone. `disposition` reads the files of the public failure
      step, `lockIdentity` the matrix lock those files are compared with, `sameFailures` compares them with the
      domain result they name. `given` is the specification path the caller passes, if any, and `specificationAt`
      resolves a path to a specification file. */
  datatype Run = Run(
    source: string, gpu: string, mode: Mode, tables: Tables,
    hash: Bytes -> string,
    decode: Bytes -> Option<Document>,
    encode: Marker -> Bytes,
    assess: (Step, Tree) -> Assessment,
    reports: Bytes -> Report,
    disposition: Tree -> Option<Disposition>,
    lockIdentity: Bytes -> Option<string>,
    sameFailures: (Tree, Bytes) -> Assessment,
    matrixLock: Bytes -> Option<string>,
    corpora: (Bytes, Mode, bool) -> Option<seq<CorpusIdentity>>,
    given: Option<string>,
    specificationAt: string -> Option<Specification>)

  const MATRIX_LOCK_FILE: Path := ["matrix.lock.json"]
  const LOCKED_SPECIFICATION_FILE: Path := ["full.yaml"]
  const CORPORA_FILE: Path := ["corpora.json"]

  const DEFAULT_SPECIFICATION := "qualification/full.yaml"

  /** The result a domain step decides its outcome by. */
  function ResultFile(step: Step): Path {
    match step
    case CoreQualification => ["core-run", "qualification-summary.json"]
    case PluginMatrix => ["plugin-runs", "validation.json"]
    case MobilenetMatrix => ["mobilenet-runs", "validation.json"]
    case _ => []
  }

  function MarkerPath(tables: Tables, step: Step): Path {
    ["done", tables.name(step) + ".json"]
  }

  /** The paths a step claims: what it owns and its logs. */
  function Claims(tables: Tables, step: Step): seq<Path> {
    OwnedPaths(tables.owned(step)) + tables.logs(step)
  }

  function OwnedPaths(owned: seq<Owned>): (paths: seq<Path>)
    ensures |paths| == |owned| && forall i :: 0 <= i < |owned| ==> paths[i] == owned[i].path
  {
    seq(|owned|, i requires 0 <= i < |owned| => owned[i].path)
  }

  predicate ClaimedBy(tables: Tables, step: Step, p: Path) {
    exists c :: c in Claims(tables, step) && c <= p
  }

  // ---------------------------------------------------------------- dependencies

  /** The candidates whose marker file says it failed. */
  function FailedAmong(run: Run, t: Tree, candidates: seq<Step>): (failed: seq<Step>)
    ensures forall s :: s in failed <==> s in candidates && SaysFailed(run, t, s)
  {
    if candidates == [] then []
    else
      var rest := FailedAmong(run, t, candidates[1..]);
      if SaysFailed(run, t, candidates[0]) then [candidates[0]] + rest else rest
  }

  predicate SaysFailed(run: Run, t: Tree, step: Step) {
    var bytes := ReadFile(t, MarkerPath(run.tables, step));
    && bytes.Some?
    && run.decode(bytes.value).Some?
    && match run.decode(bytes.value).value
       case MarkerDocument(marker) => marker.outcome.Failed?
       case OtherDocument(failed) => failed
  }

  /** The one failed candidate, none, or an exception when the state retains several. */
  function FailedStepFromMarkers(run: Run, t: Tree, candidates: seq<Step>): Result<Option<Step>, ()> {
    var failed := FailedAmong(run, t, candidates);
    if |failed| > 1 then Err(()) else Ok(if failed == [] then None else Some(failed[0]))
  }

  /** The direct dependencies in a state, or nothing when finding them raises. */
  function Dependencies(run: Run, t: Tree, step: Step): (deps: Option<seq<Step>>)
    ensures deps.Some? ==> forall d :: d in deps.value ==> Rank(d) < Rank(step)
  {
    var domain := FailedStepFromMarkers(run, t, DomainFailureSteps());
    var candidate := FailedStepFromMarkers(run, t, Candidates(run.mode));
    if step.PublicFailure? && domain.Err? then None
    else if step.FinalEvidence? && candidate.Err? then None
    else
      var failedDomain := if domain.Ok? then domain.value else None;
      var failedCandidate := if candidate.Ok? then candidate.value else None;
      var resolved := ResolvedDependencies(step, run.mode, failedDomain, failedCandidate);
      DependenciesDescend(step, run.mode, failedDomain, failedCandidate);
      Some(resolved)
  }

  lemma DependenciesDescend(step: Step, mode: Mode, failedDomain: Option<Step>, failedCandidate: Option<Step>)
    requires failedDomain.Some? ==> failedDomain.value in DomainFailureSteps()
    requires failedCandidate.Some? ==> failedCandidate.value in Candidates(mode)
    ensures forall d :: d in ResolvedDependencies(step, mode, failedDomain, failedCandidate) ==> Rank(d) < Rank(step)
  {
    forall d | d in ResolvedDependencies(step, mode, failedDomain, failedCandidate) ensures Rank(d) < Rank(step) {
      ResolvedDescends(step, mode, failedDomain, failedCandidate, d);
    }
  }

  /** `c` is the step itself or one of the steps it depends on, as the state resolves the dependencies. */
  predicate InCone(run: Run, t: Tree, step: Step, c: Step)
    decreases Rank(step)
  {
    var deps := Dependencies(run, t, step);
    c == step || (deps.Some? && exists d :: d in deps.value && InCone(run, t, d, c))
  }

  // ---------------------------------------------------------------- inventory

  /** The regular files of one required path, or nothing when the path is absent, unsafe or empty. */
  function Collect(run: Run, t: Tree, item: Owned): Option<map<Path, FileIdentity>> {
    if exists k :: 0 < k < |item.path| && item.path[..k] in t && t[item.path[..k]].Symlink? then None
    else if item.path !in t then None
    else if item.directory then
      var files := map p | p in t && item.path < p && t[p].File? :: Identify(run, t[p].content);
      if !t[item.path].Directory? then None
      else if exists p :: p in t && item.path < p && !t[p].File? && !t[p].Directory? then None
      else if files == map[] then None
      else Some(files)
    else if t[item.path].File? then Some(map[item.path := Identify(run, t[item.path].content)])
    else None
  }

  function Identify(run: Run, content: Bytes): FileIdentity {
    FileIdentity(|content|, run.hash(content))
  }

  /** Collect required paths one after the other; a file may appear only once. */
  function CollectAll(run: Run, t: Tree, items: seq<Owned>): Option<map<Path, FileIdentity>> {
    if items == [] then Some(map[])
    else
      var before := CollectAll(run, t, items[..|items| - 1]);
      var last := Collect(run, t, items[|items| - 1]);
      if before.None? || last.None? || !(before.value.Keys !! last.value.Keys) then None
      else Some(before.value + last.value)
  }

  function PresentLogs(t: Tree, logs: seq<Path>): (items: seq<Owned>)
    ensures forall i :: i in items ==> !i.directory && i.path in t && i.path in logs
    ensures forall p :: p in logs && p in t ==> Owned(p, false) in items
  {
    if logs == [] then []
    else
      var rest := PresentLogs(t, logs[1..]);
      if logs[0] in t then [Owned(logs[0], false)] + rest else rest
  }

  /** The complete inventory of a step: every owned path, and at least one closed log. */
  function Inventory(run: Run, t: Tree, step: Step): Option<map<Path, FileIdentity>> {
    var logs := PresentLogs(t, run.tables.logs(step));
    if logs == [] then None else CollectAll(run, t, run.tables.owned(step) + logs)
  }

  // ---------------------------------------------------------------- payload

  /** What the assessment of most steps may look at: the paths claimed in the cone, and the markers of the
      dependencies. */
  function View(run: Run, t: Tree, step: Step): Tree {
    map p | p in t && InView(run, t, step, p) :: t[p]
  }

  predicate InView(run: Run, t: Tree, step: Step, p: Path) {
    exists c :: InCone(run, t, step, c)
                && (ClaimedBy(run.tables, c, p) || (c != step && p == MarkerPath(run.tables, c)))
  }

  /** The files of the public failure step itself. */
  function OwnFiles(run: Run, t: Tree): Tree {
    map p | p in t && ClaimedBy(run.tables, PublicFailure, p) :: t[p]
  }

  /** The failure records one after the other; a reduced one must name the matrix lock of the state. */
  function ReviewItems(run: Run, matrix: Option<Bytes>, items: seq<DispositionItem>): Assessment {
    if items == [] then Assessed(Passed)
    else if !items[0].own.Assessed? then items[0].own
    else if items[0].matrixLock.None? then ReviewItems(run, matrix, items[1..])
    else if matrix.None? || run.lockIdentity(matrix.value).None? then Refused
    else if run.lockIdentity(matrix.value) != items[0].matrixLock then Escaped
    else ReviewItems(run, matrix, items[1..])
  }

  /** The result a disposition names, wherever it lies: it must be the recorded file, say that it failed, and hold
      the failures the disposition resolves. A missing or different file raises what the engine does not catch. */
  function ReviewResult(run: Run, own: Tree, disposition: Disposition, found: Option<Bytes>): Assessment {
    if disposition.result == [] || found.None? || Identify(run, found.value) != disposition.identity then Escaped
    else if !run.reports(found.value).ReportsFailed? then Escaped
    else match run.sameFailures(own, found.value)
      case Assessed(_) => Assessed(Passed)
      case other => other
  }

  /** The public failure step is judged by its disposition, the matrix lock and the result the disposition names. */
  function AssessPublicFailure(run: Run, t: Tree): Assessment {
    var own := OwnFiles(run, t);
    match run.disposition(own)
    case None => Refused
    case Some(disposition) =>
      if !IsDomain(disposition.source) then Refused
      else match ReviewItems(run, ReadFile(t, MATRIX_LOCK_FILE), disposition.items)
        case Assessed(_) => ReviewResult(run, own, disposition, ReadFile(t, disposition.result))
        case other => other
  }

  /** A domain step passes when its result says so; any other decision must be a failed one. */
  function AssessDomain(run: Run, view: Tree, step: Step): Assessment {
    var result := ReadFile(view, ResultFile(step));
    if result.None? || run.reports(result.value).Unreadable? then Refused
    else if run.reports(result.value).ReportsPassed? then Assessed(Passed)
    else match run.assess(step, view)
      case Assessed(_) => if run.reports(result.value).ReportsFailed? then Assessed(Failed) else Refused
      case other => other
  }

  /** Only a domain step or the final evidence can be recorded as failed. */
  function AssessStep(run: Run, t: Tree, step: Step): Assessment {
    if step.PublicFailure? then AssessPublicFailure(run, t)
    else if IsDomain(step) then AssessDomain(run, View(run, t, step), step)
    else
      var assessment := run.assess(step, View(run, t, step));
      if assessment.Assessed? && !step.FinalEvidence? then Assessed(Passed) else assessment
  }

  function DependencyHashes(run: Run, t: Tree, deps: seq<Step>): Option<map<Step, string>> {
    if exists d :: d in deps && ReadFile(t, MarkerPath(run.tables, d)).None? then None
    else Some(map d | d in deps :: run.hash(ReadFile(t, MarkerPath(run.tables, d)).value))
  }

  predicate BindsMatrix(step: Step) {
    step.MatrixLock? || IsMatrixBound(step)
  }

  predicate BindsCorpora(step: Step) {
    step.CorpusMaterialization? || IsCorpusBound(step)
  }

  function MatrixBinding(run: Run, t: Tree): Option<string> {
    var bytes := ReadFile(t, MATRIX_LOCK_FILE);
    if bytes.None? then None else run.matrixLock(bytes.value)
  }

  function CorpusBinding(run: Run, t: Tree, verifyContents: bool): Option<seq<CorpusIdentity>> {
    var bytes := ReadFile(t, CORPORA_FILE);
    if bytes.None? then None else run.corpora(bytes.value, run.mode, verifyContents)
  }

  /** The specification path a matrix-lock marker names. */
  function RecordedSpecification(run: Run, marker: Option<Bytes>): Option<string> {
    if marker.None? then None
    else match run.decode(marker.value)
      case Some(MarkerDocument(m)) =>
        if m.lineage.Some? && Absolute(m.lineage.value.resolvedPath) then Some(m.lineage.value.resolvedPath) else None
      case _ => None
  }

  /** The path the caller passes, or else the recorded one, or else the project's own. */
  function SpecificationOf(run: Run, marker: Option<Bytes>): Option<Specification> {
    run.specificationAt(
      if run.given.Some? then run.given.value else RecordedSpecification(run, marker).GetOr(DEFAULT_SPECIFICATION))
  }

  function SpecificationLineage(run: Run, t: Tree): Option<Lineage> {
    var specification := SpecificationOf(run, ReadFile(t, MarkerPath(run.tables, MatrixLock)));
    var locked := ReadFile(t, LOCKED_SPECIFICATION_FILE);
    if specification.None? || locked.None? then None
    else Some(Lineage(specification.value.resolvedPath, run.hash(specification.value.content), run.hash(locked.value)))
  }

  datatype Failure = Caught | Uncaught

  /** The deterministic marker of one step. */
  function Payload(run: Run, t: Tree, step: Step): Result<Marker, Failure> {
    if step !in ModeSteps(run.mode) then Err(Caught)
    else
      var inventory := Inventory(run, t, step);
      if inventory.None? then Err(Caught)
      else match AssessStep(run, t, step)
        case Refused => Err(Caught)
        case Escaped => Err(Uncaught)
        case Assessed(outcome) =>
          var deps := Dependencies(run, t, step);
          var hashes := if deps.None? then None else DependencyHashes(run, t, deps.value);
          var matrix := MatrixBinding(run, t);
          var corpora := CorpusBinding(run, t, step.CorpusMaterialization?);
          var lineage := SpecificationLineage(run, t);
          if hashes.None? then Err(Caught)
          else if BindsMatrix(step) && (matrix.None? || lineage.None?) then Err(Caught)
          else if BindsCorpora(step) && corpora.None? then Err(Caught)
          else Ok(Marker(step, run.source, run.gpu, run.mode, outcome, inventory.value, hashes.value,
                         if BindsMatrix(step) then matrix else None,
                         if BindsCorpora(step) then corpora.value else [],
                         if BindsMatrix(step) then lineage else None))
  }

  // ---------------------------------------------------------------- verification

  /** The comparison of a retained marker with the payload recomputed from the state. */
  function CheckMarker(run: Run, t: Tree, step: Step): Verdict {
    var bytes := ReadFile(t, MarkerPath(run.tables, step));
    if bytes.None? || run.decode(bytes.value).None? then Invalid
    else match Payload(run, t, step)
      case Err(Caught) => Invalid
      case Err(Uncaught) => Raised
      case Ok(expected) => if run.decode(bytes.value).value == MarkerDocument(expected) then Valid else Invalid
  }

  function ChecksOf(run: Run, t: Tree): (checks: Checks<Step>)
    ensures Acyclic(checks)
    ensures forall s :: checks.admits(s) <==> s in ModeSteps(run.mode)
    ensures forall s :: checks.deps(s) == Dependencies(run, t, s)
    ensures forall s :: checks.local(s) == CheckMarker(run, t, s)
  {
    Checks(s => s in ModeSteps(run.mode), s => Dependencies(run, t, s), s => CheckMarker(run, t, s), Rank)
  }

  /** The verdict of `verify_marker` on a state. */
  ghost function Verify(run: Run, t: Tree, step: Step): Verdict {
    Judge(ChecksOf(run, t), step)
  }

  ghost predicate Verifies(run: Run, t: Tree, step: Step) {
    Verify(run, t, step).Valid?
  }

  /** What a verified step guarantees about the state. */
  lemma VerifiesMeans(run: Run, t: Tree, step: Step)
    ensures Verifies(run, t, step) <==>
              && step in ModeSteps(run.mode)
              && Dependencies(run, t, step).Some?
              && (forall d :: d in Dependencies(run, t, step).value ==> Verifies(run, t, d))
              && CheckMarker(run, t, step).Valid?
  {
    hide Dependencies, CheckMarker, ModeSteps;
    ValidMeans(ChecksOf(run, t), step);
  }

  /** Where an exception out of a verification comes from. */
  lemma RaisedMeans(run: Run, t: Tree, step: Step)
    ensures Verify(run, t, step).Raised? ==> step in ModeSteps(run.mode)
    ensures step in ModeSteps(run.mode) && Dependencies(run, t, step).None? ==> Verify(run, t, step).Raised?
    ensures Verify(run, t, step).Raised? && Dependencies(run, t, step).Some? ==>
              || CheckMarker(run, t, step).Raised?
              || exists d :: d in Dependencies(run, t, step).value && Verify(run, t, d).Raised?
  {
    hide Dependencies, CheckMarker, ModeSteps;
    if Dependencies(run, t, step).Some? {
      JudgeAllValid(ChecksOf(run, t), step, Dependencies(run, t, step).value);
    }
  }
}
