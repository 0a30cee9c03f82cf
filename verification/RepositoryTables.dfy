/** The repository's ownership table, and the proof that the import-time check accepts it. */
module RepositoryTables {
  import opened Gates
  import opened StateTree
  import opened Markers
  import opened Authority
  import opened ReconcileProperties

  function Name(step: Step): string {
    match step
    case Preflight => "preflight"
    case CpuVerify => "cpu-verify"
    case GpuRuntimePreflight => "gpu-runtime-preflight"
    case RegistryBootstrap => "registry-bootstrap"
    case CapacityPreflight => "capacity-preflight"
    case ReferenceEnvironment => "reference-environment"
    case WorkerImages => "worker-images"
    case MatrixLock => "matrix-lock"
    case MatrixLiveVerification => "matrix-live-verification"
    case CorpusMaterialization => "corpus-materialization"
    case PluginBuild => "plugin-build"
    case TargetReadiness => "target-readiness"
    case ProfilerPreflight => "profiler-preflight"
    case AaPilot => "aa-pilot"
    case CoreQualification => "core-qualification"
    case GpuSmoke => "gpu-smoke"
    case PluginBenchmark => "plugin-benchmark"
    case PluginMatrix => "plugin-matrix"
    case MobilenetMatrix => "mobilenet-matrix"
    case PublicFailure => "public-failure"
    case FaultInputs => "fault-inputs"
    case GpuFaults => "gpu-faults"
    case ReductionPrepare => "reduction-prepare"
    case ReplayG2 => "replay-G2"
    case ReplayG7 => "replay-G7"
    case ReductionValidation => "reduction-validation"
    case MemorySeed => "memory-seed"
    case Sanitizers => "sanitizers"
    case Profiles => "profiles"
    case Sboms => "sboms"
    case DependencyAudit => "dependency-audit"
    case FinalEvidence => "final-evidence"
    case TerminalCleanup => "terminal-cleanup"
  }

  function FileAt(name: string): Owned {
    Owned([name], false)
  }

  function DirectoryAt(name: string): Owned {
    Owned([name], true)
  }

  /** Directories and files below `reductions`. */
  function ReductionAt(name: string, directory: bool): Owned {
    Owned(["reductions", name], directory)
  }

  function OwnedBy(step: Step): seq<Owned> {
    match step
    case Preflight => [FileAt("source.commit"), FileAt("gpu.uuid"), FileAt("gpu-preflight.csv")]
    case CpuVerify => []
    case GpuRuntimePreflight => [FileAt("gpu-runtime-preflight.json")]
    case RegistryBootstrap => [FileAt("registry-identity.json")]
    case CapacityPreflight => [DirectoryAt("capacity")]
    case ReferenceEnvironment => [FileAt("reference-environment.lock.json")]
    case WorkerImages => [FileAt("worker-images.json")]
    case MatrixLock => [FileAt("matrix.yaml"), FileAt("full.yaml"), FileAt("core.yaml"), FileAt("matrix.lock.json")]
    case MatrixLiveVerification => [FileAt("matrix-live-verification.json")]
    case CorpusMaterialization => [FileAt("corpora.json")]
    case PluginBuild => [DirectoryAt("plugin-build")]
    case TargetReadiness => [DirectoryAt("target-readiness")]
    case ProfilerPreflight => [DirectoryAt("profiler-preflight")]
    case AaPilot => [DirectoryAt("aa")]
    case CoreQualification => [DirectoryAt("core-run")]
    case GpuSmoke => [DirectoryAt("smoke")]
    case PluginBenchmark => [DirectoryAt("plugin-benchmark")]
    case PluginMatrix => [DirectoryAt("plugin-runs")]
    case MobilenetMatrix => [DirectoryAt("mobilenet-runs")]
    case PublicFailure => [DirectoryAt("public-failure")]
    case FaultInputs => [DirectoryAt("fault-inputs")]
    case GpuFaults => [DirectoryAt("gpu-faults")]
    case ReductionPrepare => [ReductionAt("prepared", true), ReductionAt("candidate-reduction-work", true)]
    case ReplayG2 => [ReductionAt("G2", true)]
    case ReplayG7 => [ReductionAt("G7", true)]
    case ReductionValidation => [ReductionAt("validation.json", false)]
    case MemorySeed => [DirectoryAt("memory-seed")]
    case Sanitizers => [DirectoryAt("sanitizers")]
    case Profiles => [DirectoryAt("profiles")]
    case Sboms => [DirectoryAt("sbom")]
    case DependencyAudit => [DirectoryAt("supply-chain")]
    case FinalEvidence =>
      [FileAt("results.json"), FileAt("report-model.json"), FileAt("report.md"), FileAt("evidence.json")]
    case TerminalCleanup => [FileAt("cleanup.json")]
  }

  /** A step logs under its own name and under its alternative public names, in name order. */
  function LogNames(step: Step): seq<string> {
    match step
    case PluginBuild => ["plugin-build", "plugin-compile-test"]
    case ReductionValidation => ["reduction-replay", "reduction-validation"]
    case _ => [Name(step)]
  }

  function LogsOf(step: Step): seq<Path> {
    var names := LogNames(step);
    seq(|names|, i requires 0 <= i < |names| => ["logs", names[i] + ".log"])
  }

  function Repository(): Tables {
    Tables(OwnedBy, LogsOf, Name)
  }

  // ---------------------------------------------------------------- telling components apart

  /** The length and the second and third characters of a component, as one number. */
  function Code(s: string): int {
    1000000 * |s| + (if 1 < |s| then 1000 * s[1] as int else 0) + if 2 < |s| then s[2] as int else 0
  }

  /** Which step owns the component with a code, and at which place of its list; shared directories have no owner. */
  function OwnerOf(code: int): (Step, int) {
    match code
    case 13111117 => (Preflight, 0)
    case 8112117 => (Preflight, 1)
    case 17112117 => (Preflight, 2)
    case 26112117 => (GpuRuntimePreflight, 0)
    case 22101103 => (RegistryBootstrap, 0)
    case 8097112 => (CapacityPreflight, 0)
    case 31101102 => (ReferenceEnvironment, 0)
    case 18111114 => (WorkerImages, 0)
    case 11097116 => (MatrixLock, 0)
    case 9117108 => (MatrixLock, 1)
    case 9111114 => (MatrixLock, 2)
    case 16097116 => (MatrixLock, 3)
    case 29097116 => (MatrixLiveVerification, 0)
    case 12111114 => (CorpusMaterialization, 0)
    case 12108117 => (PluginBuild, 0)
    case 16097114 => (TargetReadiness, 0)
    case 18114111 => (ProfilerPreflight, 0)
    case 2097000 => (AaPilot, 0)
    case 8111114 => (CoreQualification, 0)
    case 5109111 => (GpuSmoke, 0)
    case 16108117 => (PluginBenchmark, 0)
    case 11108117 => (PluginMatrix, 0)
    case 14111098 => (MobilenetMatrix, 0)
    case 14117098 => (PublicFailure, 0)
    case 12097117 => (FaultInputs, 0)
    case 10112117 => (GpuFaults, 0)
    case 8114101 => (ReductionPrepare, 0)
    case 24097110 => (ReductionPrepare, 1)
    case 2050000 => (ReplayG2, 0)
    case 2055000 => (ReplayG7, 0)
    case 15097108 => (ReductionValidation, 0)
    case 11101109 => (MemorySeed, 0)
    case 10097110 => (Sanitizers, 0)
    case 8114111 => (Profiles, 0)
    case 4098111 => (Sboms, 0)
    case 12117112 => (DependencyAudit, 0)
    case 12101115 => (FinalEvidence, 0)
    case 17101112 => (FinalEvidence, 1)
    case 9101112 => (FinalEvidence, 2)
    case 13118105 => (FinalEvidence, 3)
    case 12108101 => (TerminalCleanup, 0)
    case _ => (Preflight, -1)
  }

  /** The length and the first and last characters of a name, as one number. */
  function NameCode(s: string): int {
    1000000 * |s| + if s == "" then 0 else 1000 * s[0] as int + s[|s| - 1] as int
  }

  /** Which step logs under the name with a code, and at which place of its list. */
  function NamerOf(code: int): (Step, int) {
    match code
    case 9112116 => (Preflight, 0)
    case 10099121 => (CpuVerify, 0)
    case 21103116 => (GpuRuntimePreflight, 0)
    case 18114112 => (RegistryBootstrap, 0)
    case 18099116 => (CapacityPreflight, 0)
    case 21114116 => (ReferenceEnvironment, 0)
    case 13119115 => (WorkerImages, 0)
    case 11109107 => (MatrixLock, 0)
    case 24109110 => (MatrixLiveVerification, 0)
    case 22099110 => (CorpusMaterialization, 0)
    case 12112100 => (PluginBuild, 0)
    case 19112116 => (PluginBuild, 1)
    case 16116115 => (TargetReadiness, 0)
    case 18112116 => (ProfilerPreflight, 0)
    case 8097116 => (AaPilot, 0)
    case 18099110 => (CoreQualification, 0)
    case 9103101 => (GpuSmoke, 0)
    case 16112107 => (PluginBenchmark, 0)
    case 13112120 => (PluginMatrix, 0)
    case 16109120 => (MobilenetMatrix, 0)
    case 14112101 => (PublicFailure, 0)
    case 12102115 => (FaultInputs, 0)
    case 10103115 => (GpuFaults, 0)
    case 17114101 => (ReductionPrepare, 0)
    case 9114050 => (ReplayG2, 0)
    case 9114055 => (ReplayG7, 0)
    case 16114121 => (ReductionValidation, 0)
    case 20114110 => (ReductionValidation, 1)
    case 11109100 => (MemorySeed, 0)
    case 10115115 => (Sanitizers, 0)
    case 8112115 => (Profiles, 0)
    case 5115115 => (Sboms, 0)
    case 16100116 => (DependencyAudit, 0)
    case 14102101 => (FinalEvidence, 0)
    case 16116112 => (TerminalCleanup, 0)
    case _ => (Preflight, -1)
  }

  lemma EngineDirectoriesHaveNoOwner()
    ensures OwnerOf(Code("done")).1 == OwnerOf(Code("stale")).1 == OwnerOf(Code("diagnostics")).1 == -1
  {
  }

  lemma SharedDirectoriesHaveNoOwner()
    ensures OwnerOf(Code("logs")).1 == OwnerOf(Code("reductions")).1 == -1
  {
  }

  function Last(p: Path): string
    requires p != []
  {
    p[|p| - 1]
  }

  /** An owned path is one component, or one component below `reductions`; the component tells its owner. */
  predicate TellsOwner(step: Step, i: int)
    requires 0 <= i < |OwnedBy(step)|
  {
    var p := OwnedBy(step)[i].path;
    && (|p| == 1 || (|p| == 2 && p[0] == "reductions"))
    && 2 <= |Last(p)| && Last(p)[1] != '.'
    && OwnerOf(Code(Last(p))) == (step, i)
  }

  /** A log name tells its step. */
  predicate TellsNamer(step: Step, i: int)
    requires 0 <= i < |LogNames(step)|
  {
    NamerOf(NameCode(LogNames(step)[i])) == (step, i)
  }

  lemma TellsOwner1(step: Step, i: int)
    requires step.Preflight? || step.CpuVerify?
    requires 0 <= i < |OwnedBy(step)|
    ensures TellsOwner(step, i)
  {
  }

  lemma TellsOwner2(step: Step, i: int)
    requires step.GpuRuntimePreflight? || step.RegistryBootstrap?
    requires 0 <= i < |OwnedBy(step)|
    ensures TellsOwner(step, i)
  {
  }

  lemma TellsOwner3(step: Step, i: int)
    requires step.CapacityPreflight? || step.ReferenceEnvironment?
    requires 0 <= i < |OwnedBy(step)|
    ensures TellsOwner(step, i)
  {
  }

  lemma TellsOwner4(step: Step, i: int)
    requires step.WorkerImages? || step.MatrixLock?
    requires 0 <= i < |OwnedBy(step)|
    ensures TellsOwner(step, i)
  {
  }

  lemma TellsOwner5(step: Step, i: int)
    requires step.MatrixLiveVerification? || step.CorpusMaterialization?
    requires 0 <= i < |OwnedBy(step)|
    ensures TellsOwner(step, i)
  {
  }

  lemma TellsOwner6(step: Step, i: int)
    requires step.PluginBuild? || step.TargetReadiness?
    requires 0 <= i < |OwnedBy(step)|
    ensures TellsOwner(step, i)
  {
  }

  lemma TellsOwner7(step: Step, i: int)
    requires step.ProfilerPreflight? || step.AaPilot?
    requires 0 <= i < |OwnedBy(step)|
    ensures TellsOwner(step, i)
  {
  }

  lemma TellsOwner8(step: Step, i: int)
    requires step.CoreQualification? || step.GpuSmoke?
    requires 0 <= i < |OwnedBy(step)|
    ensures TellsOwner(step, i)
  {
  }

  lemma TellsOwner9(step: Step, i: int)
    requires step.PluginBenchmark? || step.PluginMatrix?
    requires 0 <= i < |OwnedBy(step)|
    ensures TellsOwner(step, i)
  {
  }

  lemma TellsOwner10(step: Step, i: int)
    requires step.MobilenetMatrix? || step.PublicFailure?
    requires 0 <= i < |OwnedBy(step)|
    ensures TellsOwner(step, i)
  {
  }

  lemma TellsOwner11(step: Step, i: int)
    requires step.FaultInputs? || step.GpuFaults?
    requires 0 <= i < |OwnedBy(step)|
    ensures TellsOwner(step, i)
  {
  }

  lemma TellsOwner12(step: Step, i: int)
    requires step.ReductionPrepare? || step.ReplayG2?
    requires 0 <= i < |OwnedBy(step)|
    ensures TellsOwner(step, i)
  {
  }

  lemma TellsOwner13(step: Step, i: int)
    requires step.ReplayG7? || step.ReductionValidation?
    requires 0 <= i < |OwnedBy(step)|
    ensures TellsOwner(step, i)
  {
  }

  lemma TellsOwner14(step: Step, i: int)
    requires step.MemorySeed? || step.Sanitizers?
    requires 0 <= i < |OwnedBy(step)|
    ensures TellsOwner(step, i)
  {
  }

  lemma TellsOwner15(step: Step, i: int)
    requires step.Profiles? || step.Sboms?
    requires 0 <= i < |OwnedBy(step)|
    ensures TellsOwner(step, i)
  {
  }

  lemma TellsOwner16(step: Step, i: int)
    requires step.DependencyAudit? || step.TerminalCleanup?
    requires 0 <= i < |OwnedBy(step)|
    ensures TellsOwner(step, i)
  {
  }

  lemma TellsOwner17(step: Step, i: int)
    requires step.FinalEvidence?
    requires 0 <= i < |OwnedBy(step)|
    ensures TellsOwner(step, i)
  {
  }

  lemma TellsNamer1(step: Step, i: int)
    requires step.Preflight? || step.CpuVerify? || step.GpuRuntimePreflight?
    requires 0 <= i < |LogNames(step)|
    ensures TellsNamer(step, i)
  {
  }

  lemma TellsNamer2(step: Step, i: int)
    requires step.RegistryBootstrap? || step.CapacityPreflight? || step.ReferenceEnvironment?
    requires 0 <= i < |LogNames(step)|
    ensures TellsNamer(step, i)
  {
  }

  lemma TellsNamer3(step: Step, i: int)
    requires step.WorkerImages? || step.MatrixLock? || step.MatrixLiveVerification?
    requires 0 <= i < |LogNames(step)|
    ensures TellsNamer(step, i)
  {
  }

  lemma TellsNamer4(step: Step, i: int)
    requires step.CorpusMaterialization? || step.PluginBuild? || step.TargetReadiness?
    requires 0 <= i < |LogNames(step)|
    ensures TellsNamer(step, i)
  {
  }

  lemma TellsNamer5(step: Step, i: int)
    requires step.ProfilerPreflight? || step.AaPilot? || step.CoreQualification?
    requires 0 <= i < |LogNames(step)|
    ensures TellsNamer(step, i)
  {
  }

  lemma TellsNamer6(step: Step, i: int)
    requires step.GpuSmoke? || step.PluginBenchmark? || step.PluginMatrix?
    requires 0 <= i < |LogNames(step)|
    ensures TellsNamer(step, i)
  {
  }

  lemma TellsNamer7(step: Step, i: int)
    requires step.MobilenetMatrix? || step.PublicFailure? || step.FaultInputs?
    requires 0 <= i < |LogNames(step)|
    ensures TellsNamer(step, i)
  {
  }

  lemma TellsNamer8(step: Step, i: int)
    requires step.GpuFaults? || step.ReductionPrepare?
    requires 0 <= i < |LogNames(step)|
    ensures TellsNamer(step, i)
  {
  }

  lemma TellsNamer9(step: Step, i: int)
    requires step.ReplayG2? || step.ReplayG7?
    requires 0 <= i < |LogNames(step)|
    ensures TellsNamer(step, i)
  {
  }

  lemma TellsNamer10(step: Step, i: int)
    requires step.ReductionValidation? || step.MemorySeed?
    requires 0 <= i < |LogNames(step)|
    ensures TellsNamer(step, i)
  {
  }

  lemma TellsNamer11(step: Step, i: int)
    requires step.Sanitizers? || step.Profiles?
    requires 0 <= i < |LogNames(step)|
    ensures TellsNamer(step, i)
  {
  }

  lemma TellsNamer12(step: Step, i: int)
    requires step.Sboms? || step.DependencyAudit?
    requires 0 <= i < |LogNames(step)|
    ensures TellsNamer(step, i)
  {
  }

  lemma TellsNamer13(step: Step, i: int)
    requires step.FinalEvidence? || step.TerminalCleanup?
    requires 0 <= i < |LogNames(step)|
    ensures TellsNamer(step, i)
  {
  }

  lemma OwnedTellsOwner(step: Step, i: int)
    requires 0 <= i < |OwnedBy(step)|
    ensures TellsOwner(step, i)
  {
    hide TellsOwner, OwnedBy;
    match step
    case Preflight | CpuVerify => TellsOwner1(step, i);
    case GpuRuntimePreflight | RegistryBootstrap => TellsOwner2(step, i);
    case CapacityPreflight | ReferenceEnvironment => TellsOwner3(step, i);
    case WorkerImages | MatrixLock => TellsOwner4(step, i);
    case MatrixLiveVerification | CorpusMaterialization => TellsOwner5(step, i);
    case PluginBuild | TargetReadiness => TellsOwner6(step, i);
    case ProfilerPreflight | AaPilot => TellsOwner7(step, i);
    case CoreQualification | GpuSmoke => TellsOwner8(step, i);
    case PluginBenchmark | PluginMatrix => TellsOwner9(step, i);
    case MobilenetMatrix | PublicFailure => TellsOwner10(step, i);
    case FaultInputs | GpuFaults => TellsOwner11(step, i);
    case ReductionPrepare | ReplayG2 => TellsOwner12(step, i);
    case ReplayG7 | ReductionValidation => TellsOwner13(step, i);
    case MemorySeed | Sanitizers => TellsOwner14(step, i);
    case Profiles | Sboms => TellsOwner15(step, i);
    case DependencyAudit | TerminalCleanup => TellsOwner16(step, i);
    case FinalEvidence => TellsOwner17(step, i);
  }

  lemma LogTellsNamer(step: Step, i: int)
    requires 0 <= i < |LogNames(step)|
    ensures TellsNamer(step, i)
  {
    hide TellsNamer, LogNames;
    match step
    case Preflight | CpuVerify | GpuRuntimePreflight => TellsNamer1(step, i);
    case RegistryBootstrap | CapacityPreflight | ReferenceEnvironment => TellsNamer2(step, i);
    case WorkerImages | MatrixLock | MatrixLiveVerification => TellsNamer3(step, i);
    case CorpusMaterialization | PluginBuild | TargetReadiness => TellsNamer4(step, i);
    case ProfilerPreflight | AaPilot | CoreQualification => TellsNamer5(step, i);
    case GpuSmoke | PluginBenchmark | PluginMatrix => TellsNamer6(step, i);
    case MobilenetMatrix | PublicFailure | FaultInputs => TellsNamer7(step, i);
    case GpuFaults | ReductionPrepare => TellsNamer8(step, i);
    case ReplayG2 | ReplayG7 => TellsNamer9(step, i);
    case ReductionValidation | MemorySeed => TellsNamer10(step, i);
    case Sanitizers | Profiles => TellsNamer11(step, i);
    case Sboms | DependencyAudit => TellsNamer12(step, i);
    case FinalEvidence | TerminalCleanup => TellsNamer13(step, i);
  }

  // ---------------------------------------------------------------- acceptance

  /** A claim is an owned path or a log. */
  lemma ClaimShape(step: Step, i: int)
    requires 0 <= i < |OwnedBy(step)| || IsClaim(Repository(), step, i)
    ensures IsClaim(Repository(), step, i)
    ensures Claims(Repository(), step)[i]
            == if i < |OwnedBy(step)| then OwnedBy(step)[i].path else LogsOf(step)[i - |OwnedBy(step)|]
    ensures i - |OwnedBy(step)| < |LogsOf(step)|
  {
    hide OwnedBy, LogNames;
  }

  lemma ClaimIsSafe(step: Step, i: int)
    requires IsClaim(Repository(), step, i)
    ensures SafeClaim(Claims(Repository(), step)[i])
  {
    hide OwnedBy, LogNames, OwnerOf, Code, Claims;
    ClaimShape(step, i);
    if i < |OwnedBy(step)| {
      OwnedTellsOwner(step, i);
      EngineDirectoriesHaveNoOwner();
      assert "reductions"[0] == 'r' && "done"[0] == 'd' && "stale"[0] == 's' && "diagnostics"[0] == 'd';
    } else {
      assert "logs"[0] == 'l' && "done"[0] == 'd' && "stale"[0] == 's' && "diagnostics"[0] == 'd';
    }
  }

  lemma OwnedApart(s: Step, i: int, r: Step, j: int)
    requires 0 <= i < |OwnedBy(s)| && 0 <= j < |OwnedBy(r)| && (s, i) != (r, j)
    ensures !Overlap(OwnedBy(s)[i].path, OwnedBy(r)[j].path)
  {
    hide OwnedBy, OwnerOf, Code;
    OwnedTellsOwner(s, i);
    OwnedTellsOwner(r, j);
    SharedDirectoriesHaveNoOwner();
  }

  lemma OwnedOffLogs(s: Step, i: int, r: Step, j: int)
    requires 0 <= i < |OwnedBy(s)| && 0 <= j < |LogsOf(r)|
    ensures !Overlap(OwnedBy(s)[i].path, LogsOf(r)[j]) && !Overlap(LogsOf(r)[j], OwnedBy(s)[i].path)
  {
    hide OwnedBy, OwnerOf, Code, LogNames;
    OwnedTellsOwner(s, i);
    SharedDirectoriesHaveNoOwner();
    assert "reductions"[0] == 'r' && "logs"[0] == 'l';
  }

  lemma LogsApart(s: Step, i: int, r: Step, j: int)
    requires 0 <= i < |LogsOf(s)| && 0 <= j < |LogsOf(r)| && (s, i) != (r, j)
    ensures !Overlap(LogsOf(s)[i], LogsOf(r)[j])
  {
    hide LogNames, NamerOf, NameCode;
    LogTellsNamer(s, i);
    LogTellsNamer(r, j);
    var x, y := LogNames(s)[i], LogNames(r)[j];
    assert (x + ".log")[..|x|] == x && (y + ".log")[..|y|] == y;
    assert |x + ".log"| == |x| + 4 && |y + ".log"| == |y| + 4;
    assert LogsOf(s)[i][1] == x + ".log" && LogsOf(r)[j][1] == y + ".log";
  }

  lemma ClaimsApart(s: Step, i: int, r: Step, j: int)
    requires IsClaim(Repository(), s, i) && IsClaim(Repository(), r, j) && (s, i) != (r, j)
    ensures !Overlap(Claims(Repository(), s)[i], Claims(Repository(), r)[j])
  {
    hide OwnedBy, LogsOf, Claims, Overlap;
    ClaimShape(s, i);
    ClaimShape(r, j);
    var m, n := |OwnedBy(s)|, |OwnedBy(r)|;
    if i < m && j < n { OwnedApart(s, i, r, j); }
    else if i < m { OwnedOffLogs(s, i, r, j - n); }
    else if j < n { OwnedOffLogs(r, j, s, i - m); }
    else { LogsApart(s, i - m, r, j - n); }
  }

  lemma NameIsLogged(step: Step)
    ensures exists i :: 0 <= i < |LogNames(step)| && LogNames(step)[i] == Name(step)
  {
    var i := if step.ReductionValidation? then 1 else 0;
    assert LogNames(step)[i] == Name(step);
  }

  lemma NamesDistinct(s: Step, r: Step)
    requires Name(s) == Name(r)
    ensures s == r
  {
    hide Name, LogNames, NamerOf, NameCode;
    NameIsLogged(s);
    NameIsLogged(r);
    var i :| 0 <= i < |LogNames(s)| && LogNames(s)[i] == Name(s);
    var j :| 0 <= j < |LogNames(r)| && LogNames(r)[j] == Name(r);
    LogTellsNamer(s, i);
    LogTellsNamer(r, j);
  }

  /** The bound files belong to the steps they are read for, and each domain result to its step. */
  lemma RepositoryIsAnchored()
    ensures Anchored(Repository())
  {
    hide OwnedBy, LogsOf, Claims, ResultFile;
    var tables := Repository();
    BoundFilesOwned();
    ClaimShape(MatrixLock, 3);
    ClaimShape(MatrixLock, 1);
    ClaimShape(CorpusMaterialization, 0);
    forall d | IsDomain(d) ensures ClaimedBy(tables, d, ResultFile(d)) {
      DomainResultOwned(d);
      ClaimShape(d, 0);
      assert Claims(tables, d)[0] in Claims(tables, d);
    }
  }

  lemma BoundFilesOwned()
    ensures |OwnedBy(MatrixLock)| == 4 && OwnedBy(MatrixLock)[3].path == MATRIX_LOCK_FILE
    ensures OwnedBy(MatrixLock)[1].path == LOCKED_SPECIFICATION_FILE
    ensures |OwnedBy(CorpusMaterialization)| == 1 && OwnedBy(CorpusMaterialization)[0].path == CORPORA_FILE
  {
  }

  lemma DomainResultOwned(d: Step)
    requires IsDomain(d)
    ensures |OwnedBy(d)| == 1 && OwnedBy(d)[0].path <= ResultFile(d)
  {
  }

  /** The repository's own ownership table passes the import-time check and meets what the theorems about
      reconciliation and recording ask of a table. */
  lemma RepositoryAccepted()
    ensures Accepted(Repository())
  {
    hide Claims, SafeClaim, OwnedBy, LogsOf, Name, Anchored;
    var tables := Repository();
    forall s, i | IsClaim(tables, s, i) ensures SafeClaim(Claims(tables, s)[i]) {
      ClaimIsSafe(s, i);
    }
    forall s, i, r, j | IsClaim(tables, s, i) && IsClaim(tables, r, j) && (s, i) != (r, j)
      ensures !Overlap(Claims(tables, s)[i], Claims(tables, r)[j])
    {
      ClaimsApart(s, i, r, j);
    }
    forall s, r | tables.name(s) == tables.name(r) ensures s == r {
      NamesDistinct(s, r);
    }
    RepositoryIsAnchored();
  }
}
