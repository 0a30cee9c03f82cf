/** The qualification steps, their dependency tables and the marker set a terminal publication retains. */
module Gates {
  import opened Results

  // Declared in the order of the dependency table.
  datatype Step =
    | Preflight
    | CpuVerify
    | GpuRuntimePreflight
    | RegistryBootstrap
    | CapacityPreflight
    | DependencyAudit
    | ReferenceEnvironment
    | CorpusMaterialization
    | WorkerImages
    | MatrixLock
    | MatrixLiveVerification
    | PluginBuild
    | TargetReadiness
    | ProfilerPreflight
    | AaPilot
    | CoreQualification
    | GpuSmoke
    | PluginBenchmark
    | PluginMatrix
    | MobilenetMatrix
    | PublicFailure
    | FaultInputs
    | GpuFaults
    | ReductionPrepare
    | ReplayG2
    | ReplayG7
    | ReductionValidation
    | MemorySeed
    | Sanitizers
    | Profiles
    | Sboms
    | FinalEvidence
    | TerminalCleanup

  datatype Mode = FullMode | SmokeMode | SanitizerMode

  datatype PublicationStatus = PublishedPassed | PublishedFailed

  function FullModeStep(position: nat): Step
    requires position < 32
  {
    match position
    case 0 => Preflight
    case 1 => CpuVerify
    case 2 => GpuRuntimePreflight
    case 3 => DependencyAudit
    case 4 => RegistryBootstrap
    case 5 => CapacityPreflight
    case 6 => ReferenceEnvironment
    case 7 => CorpusMaterialization
    case 8 => WorkerImages
    case 9 => MatrixLock
    case 10 => MatrixLiveVerification
    case 11 => PluginBuild
    case 12 => ProfilerPreflight
    case 13 => TargetReadiness
    case 14 => Sanitizers
    case 15 => Sboms
    case 16 => AaPilot
    case 17 => CoreQualification
    case 18 => PluginBenchmark
    case 19 => PluginMatrix
    case 20 => MobilenetMatrix
    case 21 => PublicFailure
    case 22 => FaultInputs
    case 23 => GpuFaults
    case 24 => ReductionPrepare
    case 25 => ReplayG2
    case 26 => ReplayG7
    case 27 => ReductionValidation
    case 28 => MemorySeed
    case 29 => Profiles
    case 30 => FinalEvidence
    case _ => TerminalCleanup
  }

  function FullModeSteps(): seq<Step> {
    seq(32, position requires 0 <= position < 32 => FullModeStep(position))
  }

  function SmokeModeSteps(): seq<Step> {
    [Preflight, CpuVerify, GpuRuntimePreflight, RegistryBootstrap, CapacityPreflight, ReferenceEnvironment,
     CorpusMaterialization, WorkerImages, MatrixLock, MatrixLiveVerification, PluginBuild, GpuSmoke]
  }

  function SanitizerModeSteps(): seq<Step> {
    [Preflight, CpuVerify, GpuRuntimePreflight, RegistryBootstrap, CapacityPreflight, ReferenceEnvironment,
     CorpusMaterialization, WorkerImages, MatrixLock, MatrixLiveVerification, PluginBuild, Sanitizers]
  }

  function ModeSteps(mode: Mode): seq<Step> {
    match mode
    case FullMode => FullModeSteps()
    case SmokeMode => SmokeModeSteps()
    case SanitizerMode => SanitizerModeSteps()
  }

  function DomainFailureSteps(): seq<Step> {
    [CoreQualification, PluginMatrix, MobilenetMatrix]
  }

  predicate IsDomain(step: Step) {
    step.CoreQualification? || step.PluginMatrix? || step.MobilenetMatrix?
  }

  function StepDependencies(step: Step): seq<Step> {
    match step
    case Preflight => []
    case CpuVerify => [Preflight]
    case GpuRuntimePreflight => [CpuVerify]
    case RegistryBootstrap => [CpuVerify]
    case CapacityPreflight => [Preflight, RegistryBootstrap]
    case DependencyAudit => [CpuVerify]
    case ReferenceEnvironment => [CpuVerify, RegistryBootstrap, CapacityPreflight]
    case CorpusMaterialization => [GpuRuntimePreflight, CapacityPreflight, ReferenceEnvironment]
    case WorkerImages => [CpuVerify, RegistryBootstrap, CapacityPreflight]
    case MatrixLock => [WorkerImages, GpuRuntimePreflight]
    case MatrixLiveVerification => [MatrixLock]
    case PluginBuild => [MatrixLiveVerification, CorpusMaterialization]
    case TargetReadiness => [PluginBuild, MatrixLiveVerification, CorpusMaterialization]
    case ProfilerPreflight => [PluginBuild]
    case AaPilot => [MatrixLock, CorpusMaterialization]
    case CoreQualification => [AaPilot, MatrixLiveVerification, CorpusMaterialization]
    case GpuSmoke => [MatrixLiveVerification, CorpusMaterialization, PluginBuild]
    case PluginBenchmark => [PluginBuild, ProfilerPreflight]
    case PluginMatrix => [MatrixLiveVerification, CorpusMaterialization, PluginBuild]
    case MobilenetMatrix => [MatrixLiveVerification, CorpusMaterialization]
    case PublicFailure => DomainFailureSteps()
    case FaultInputs => [CorpusMaterialization]
    case GpuFaults =>
      [MatrixLiveVerification, CoreQualification, PluginMatrix, FaultInputs, PluginBuild, CorpusMaterialization]
    case ReductionPrepare => [GpuFaults, CoreQualification, PluginMatrix, MatrixLiveVerification, CorpusMaterialization]
    case ReplayG2 => [ReductionPrepare]
    case ReplayG7 => [ReductionPrepare]
    case ReductionValidation => [ReductionPrepare, ReplayG2, ReplayG7]
    case MemorySeed => [GpuFaults, FaultInputs, PluginBuild, CorpusMaterialization]
    case Sanitizers => [PluginBuild, MatrixLiveVerification]
    case Profiles => [ProfilerPreflight, PluginBuild, PluginBenchmark, MatrixLiveVerification]
    case Sboms => [WorkerImages, MatrixLiveVerification]
    case FinalEvidence => []
    case TerminalCleanup => [FinalEvidence]
  }

  /** Steps that are never gates of a publication. */
  predicate IsNonGate(step: Step) {
    step.PublicFailure? || step.FinalEvidence? || step.TerminalCleanup?
  }

  function Gating(steps: seq<Step>): seq<Step> {
    if steps == [] then []
    else (if IsNonGate(steps[0]) then [] else [steps[0]]) + Gating(steps[1..])
  }

  function Candidates(mode: Mode): seq<Step> {
    Gating(ModeSteps(mode))
  }

  function IndexOf(steps: seq<Step>, step: Step): nat
    requires step in steps
  {
    if steps[0] == step then 0 else 1 + IndexOf(steps[1..], step)
  }

  /** The candidates up to and including one of them. */
  function Through(steps: seq<Step>, last: Step): seq<Step>
    requires last in steps
  {
    IndexOfInRange(steps, last);
    steps[..IndexOf(steps, last) + 1]
  }

  /** The edges the state engine uses when it has no state to look at. */
  function StaticDependencies(step: Step, mode: Mode): seq<Step> {
    match step
    case PublicFailure => DomainFailureSteps()
    case FinalEvidence => Candidates(mode)
    case _ => StepDependencies(step)
  }

  /** The edges once the failed markers of the state are known: the failed domain step for the public
      failure step, and the failed candidate for the final evidence. */
  function ResolvedDependencies(step: Step, mode: Mode, failedDomain: Option<Step>,
                                failedCandidate: Option<Step>): seq<Step>
    requires failedCandidate.Some? ==> failedCandidate.value in Candidates(mode)
  {
    match step
    case PublicFailure => if failedDomain.None? then [] else [failedDomain.value]
    case FinalEvidence =>
      if failedCandidate.None? then Candidates(mode)
      else Through(Candidates(mode), failedCandidate.value) + [PublicFailure]
    case _ => StepDependencies(step)
  }

  /** The exact ordered marker set a full terminal publication must retain. */
  function ExpectedPublicationSteps(status: PublicationStatus, failureStep: Option<Step>): Option<seq<Step>> {
    match status
    case PublishedPassed =>
      if failureStep.Some? then None else Some(Candidates(FullMode))
    case PublishedFailed =>
      if failureStep.None? || !IsDomain(failureStep.value) then None
      else Some(FailedPublicationSteps(failureStep.value, FullMode))
  }

  /** Every candidate through the failed domain step, closed by the public failure step. */
  function FailedPublicationSteps(failureStep: Step, mode: Mode): seq<Step>
    requires IsDomain(failureStep) && mode.FullMode?
  {
    CandidatesOf(mode, failureStep);
    Through(Candidates(mode), failureStep) + [PublicFailure]
  }

  /** The direct dependency set retained in a terminal marker. */
  function DirectStepDependencies(step: Step, failureStep: Option<Step>): Option<seq<Step>> {
    if step.PublicFailure? then
      if failureStep.None? || !IsDomain(failureStep.value) then None else Some([failureStep.value])
    else
      Some(StepDependencies(step))
  }

  // ---------------------------------------------------------------- positions

  /** Position in the dependency table, which lists every step after its dependencies. */
  function Rank(step: Step): nat {
    match step
    case Preflight => 0
    case CpuVerify => 1
    case GpuRuntimePreflight => 2
    case RegistryBootstrap => 3
    case CapacityPreflight => 4
    case DependencyAudit => 5
    case ReferenceEnvironment => 6
    case CorpusMaterialization => 7
    case WorkerImages => 8
    case MatrixLock => 9
    case MatrixLiveVerification => 10
    case PluginBuild => 11
    case TargetReadiness => 12
    case ProfilerPreflight => 13
    case AaPilot => 14
    case CoreQualification => 15
    case GpuSmoke => 16
    case PluginBenchmark => 17
    case PluginMatrix => 18
    case MobilenetMatrix => 19
    case PublicFailure => 20
    case FaultInputs => 21
    case GpuFaults => 22
    case ReductionPrepare => 23
    case ReplayG2 => 24
    case ReplayG7 => 25
    case ReductionValidation => 26
    case MemorySeed => 27
    case Sanitizers => 28
    case Profiles => 29
    case Sboms => 30
    case FinalEvidence => 31
    case TerminalCleanup => 32
  }

  /** Position of the step's name among all names in sort order. */
  function NameRank(step: Step): nat {
    match step
    case Preflight => 18
    case CpuVerify => 4
    case GpuRuntimePreflight => 9
    case RegistryBootstrap => 25
    case CapacityPreflight => 1
    case DependencyAudit => 5
    case ReferenceEnvironment => 24
    case CorpusMaterialization => 3
    case WorkerImages => 32
    case MatrixLock => 12
    case MatrixLiveVerification => 11
    case PluginBuild => 16
    case TargetReadiness => 30
    case ProfilerPreflight => 19
    case AaPilot => 0
    case CoreQualification => 2
    case GpuSmoke => 10
    case PluginBenchmark => 15
    case PluginMatrix => 17
    case MobilenetMatrix => 14
    case PublicFailure => 21
    case FaultInputs => 6
    case GpuFaults => 8
    case ReductionPrepare => 22
    case ReplayG2 => 26
    case ReplayG7 => 27
    case ReductionValidation => 23
    case MemorySeed => 13
    case Sanitizers => 28
    case Profiles => 20
    case Sboms => 29
    case FinalEvidence => 7
    case TerminalCleanup => 31
  }

  /** Position in the full-mode list; the one step outside that list is put after it. */
  function FullPosition(step: Step): nat {
    match step
    case Preflight => 0
    case CpuVerify => 1
    case GpuRuntimePreflight => 2
    case DependencyAudit => 3
    case RegistryBootstrap => 4
    case CapacityPreflight => 5
    case ReferenceEnvironment => 6
    case CorpusMaterialization => 7
    case WorkerImages => 8
    case MatrixLock => 9
    case MatrixLiveVerification => 10
    case PluginBuild => 11
    case ProfilerPreflight => 12
    case TargetReadiness => 13
    case Sanitizers => 14
    case Sboms => 15
    case AaPilot => 16
    case CoreQualification => 17
    case PluginBenchmark => 18
    case PluginMatrix => 19
    case MobilenetMatrix => 20
    case PublicFailure => 21
    case FaultInputs => 22
    case GpuFaults => 23
    case ReductionPrepare => 24
    case ReplayG2 => 25
    case ReplayG7 => 26
    case ReductionValidation => 27
    case MemorySeed => 28
    case Profiles => 29
    case FinalEvidence => 30
    case TerminalCleanup => 31
    case GpuSmoke => 32
  }

  lemma PositionOfStep(i: nat)
    requires i < 32
    ensures FullPosition(FullModeStep(i)) == i && FullModeStep(i) != GpuSmoke
  {
  }

  lemma StepAtPosition(s: Step)
    requires s != GpuSmoke
    ensures FullPosition(s) < 32 && FullModeStep(FullPosition(s)) == s
  {
  }

  lemma FullPositions()
    ensures forall i :: 0 <= i < |FullModeSteps()| ==> FullPosition(FullModeSteps()[i]) == i
    ensures forall s :: s in FullModeSteps() <==> s != GpuSmoke
  {
    hide FullPosition, FullModeStep;
    forall i | 0 <= i < 32
      ensures FullPosition(FullModeSteps()[i]) == i && FullModeSteps()[i] != GpuSmoke
    {
      PositionOfStep(i);
    }
    forall s | s != GpuSmoke ensures s in FullModeSteps() {
      StepAtPosition(s);
      assert FullModeSteps()[FullPosition(s)] == s;
    }
  }

  lemma {:induction false} IndexOfInRange(steps: seq<Step>, step: Step)
    requires step in steps
    ensures IndexOf(steps, step) < |steps| && steps[IndexOf(steps, step)] == step
  {
    if steps[0] != step {
      IndexOfInRange(steps[1..], step);
    }
  }

  lemma {:induction false} GatingKeeps(steps: seq<Step>)
    ensures forall s :: s in Gating(steps) <==> s in steps && !IsNonGate(s)
  {
    hide IsNonGate;
    if steps != [] {
      GatingKeeps(steps[1..]);
      assert steps == [steps[0]] + steps[1..];
    }
  }

  lemma CandidatesOf(mode: Mode, step: Step)
    ensures step in Candidates(mode) <==> step in ModeSteps(mode) && !IsNonGate(step)
    ensures mode.FullMode? ==> (step in ModeSteps(mode) <==> step != GpuSmoke)
  {
    hide FullModeSteps, SmokeModeSteps, SanitizerModeSteps, Gating, IsNonGate;
    GatingKeeps(ModeSteps(mode));
    FullPositions();
  }
}
