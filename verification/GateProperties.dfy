/** What the step tables guarantee: acyclicity, closed modes and publications, and agreeing bindings. */
module GateProperties {
  import opened Results
  import opened Graphs
  import opened Gates

  // ---------------------------------------------------------------- the static graph of one mode

  function StaticEdges(mode: Mode): Step -> seq<Step> {
    s => StaticDependencies(s, mode)
  }

  function StepSet(mode: Mode): set<Step> {
    set s | s in ModeSteps(mode)
  }

  /** What the dependency table keeps of each of its edges, in its own order and in that of the full mode. */
  predicate ListedBefore(d: Step, step: Step) {
    && Rank(d) < Rank(step) && d != PublicFailure && d != GpuSmoke
    && (IsNonGate(d) ==> step == TerminalCleanup)
    && (step != GpuSmoke ==> FullPosition(d) < FullPosition(step))
  }

  lemma FirstTable(step: Step, d: Step)
    requires Rank(step) < 12 && d in StepDependencies(step)
    ensures ListedBefore(d, step)
  {
    var deps := StepDependencies(step);
    var i :| 0 <= i < |deps| && deps[i] == d;
    assert |deps| <= 6;
  }

  lemma SecondTable(step: Step, d: Step)
    requires 12 <= Rank(step) < 18 && d in StepDependencies(step)
    ensures ListedBefore(d, step)
  {
    var deps := StepDependencies(step);
    var i :| 0 <= i < |deps| && deps[i] == d;
    assert |deps| <= 6;
  }

  lemma ThirdTable(step: Step, d: Step)
    requires 18 <= Rank(step) < 23 && d in StepDependencies(step)
    ensures ListedBefore(d, step)
  {
    var deps := StepDependencies(step);
    var i :| 0 <= i < |deps| && deps[i] == d;
    assert |deps| <= 6;
  }

  lemma FourthTable(step: Step, d: Step)
    requires 23 <= Rank(step) && d in StepDependencies(step)
    ensures ListedBefore(d, step)
  {
    var deps := StepDependencies(step);
    var i :| 0 <= i < |deps| && deps[i] == d;
    assert |deps| <= 6;
  }

  lemma TableDescends(step: Step, d: Step)
    requires d in StepDependencies(step)
    ensures ListedBefore(d, step)
  {
    hide StepDependencies, Rank, ListedBefore;
    if Rank(step) < 12 {
      FirstTable(step, d);
    } else if Rank(step) < 18 {
      SecondTable(step, d);
    } else if Rank(step) < 23 {
      ThirdTable(step, d);
    } else {
      FourthTable(step, d);
    }
  }

  lemma GatesRankBelowFinalEvidence(d: Step)
    requires !IsNonGate(d)
    ensures Rank(d) < Rank(FinalEvidence)
  {
  }

  /** Every static edge leads to a step listed earlier in the dependency table. */
  lemma EdgesDescend(step: Step, d: Step, mode: Mode)
    requires d in StaticDependencies(step, mode)
    ensures Rank(d) < Rank(step)
  {
    hide StepDependencies, Rank, Candidates, IsNonGate, ModeSteps;
    if step.FinalEvidence? {
      CandidatesOf(mode, d);
      GatesRankBelowFinalEvidence(d);
    } else {
      PublicFailureEdges();
      TableDescends(step, d);
    }
  }

  lemma PublicFailureEdges()
    ensures StepDependencies(PublicFailure) == DomainFailureSteps()
  {
  }

  /** No mode omits a dependency of one of its steps. */
  lemma ModeClosed(mode: Mode, step: Step, d: Step)
    requires step in ModeSteps(mode) && d in StaticDependencies(step, mode)
    ensures d in ModeSteps(mode)
  {
    hide StepDependencies, Candidates, IsNonGate, IsCommon, FullModeSteps, SmokeModeSteps, SanitizerModeSteps;
    if step.FinalEvidence? {
      CandidatesOf(mode, d);
    } else {
      PublicFailureEdges();
      TableStaysInMode(step, d);
      FullPositions();
      SmokeMembers(step);
      SmokeMembers(d);
      SanitizerMembers(step);
      SanitizerMembers(d);
    }
  }

  lemma TableStaysInMode(step: Step, d: Step)
    requires d in StepDependencies(step)
    ensures d != GpuSmoke
    ensures IsCommon(step) || step.GpuSmoke? || step.Sanitizers? ==> IsCommon(d)
  {
    var deps := StepDependencies(step);
    var i :| 0 <= i < |deps| && deps[i] == d;
    assert |deps| <= 6;
  }

  /** The eleven steps every short mode starts with. */
  predicate IsCommon(step: Step) {
    match step
    case Preflight | CpuVerify | GpuRuntimePreflight | RegistryBootstrap | CapacityPreflight | ReferenceEnvironment
      | CorpusMaterialization | WorkerImages | MatrixLock | MatrixLiveVerification | PluginBuild => true
    case _ => false
  }

  lemma SmokeMembers(step: Step)
    ensures step in SmokeModeSteps() <==> IsCommon(step) || step.GpuSmoke?
  {
  }

  lemma SanitizerMembers(step: Step)
    ensures step in SanitizerModeSteps() <==> IsCommon(step) || step.Sanitizers?
  {
  }

  lemma NamesAreDistinct(a: Step, b: Step)
    requires NameRank(a) == NameRank(b)
    ensures a == b
  {
    hide NameRank, StepNamed;
    NameRankInverse(a);
    NameRankInverse(b);
  }

  lemma NameRankInverse(step: Step)
    ensures StepNamed(NameRank(step)) == step
  {
  }

  /** The step whose name has the given position among all names in sort order. */
  function StepNamed(position: nat): Step {
    match position
    case 0 => AaPilot
    case 1 => CapacityPreflight
    case 2 => CoreQualification
    case 3 => CorpusMaterialization
    case 4 => CpuVerify
    case 5 => DependencyAudit
    case 6 => FaultInputs
    case 7 => FinalEvidence
    case 8 => GpuFaults
    case 9 => GpuRuntimePreflight
    case 10 => GpuSmoke
    case 11 => MatrixLiveVerification
    case 12 => MatrixLock
    case 13 => MemorySeed
    case 14 => MobilenetMatrix
    case 15 => PluginBenchmark
    case 16 => PluginBuild
    case 17 => PluginMatrix
    case 18 => Preflight
    case 19 => ProfilerPreflight
    case 20 => Profiles
    case 21 => PublicFailure
    case 22 => ReductionPrepare
    case 23 => ReductionValidation
    case 24 => ReferenceEnvironment
    case 25 => RegistryBootstrap
    case 26 => ReplayG2
    case 27 => ReplayG7
    case 28 => Sanitizers
    case 29 => Sboms
    case 30 => TargetReadiness
    case 31 => TerminalCleanup
    case _ => WorkerImages
  }

  /** The steps bound to matrix-lock by one or more edges. */
  predicate IsMatrixBound(step: Step) {
    match step
    case Preflight | CpuVerify | GpuRuntimePreflight | RegistryBootstrap | CapacityPreflight | DependencyAudit
      | ReferenceEnvironment | CorpusMaterialization | WorkerImages | MatrixLock | FaultInputs => false
    case _ => true
  }

  /** A direct dependency through which a bound step reaches matrix-lock. */
  function MatrixRoute(step: Step): Step {
    match step
    case PluginBuild => MatrixLiveVerification
    case TargetReadiness => PluginBuild
    case ProfilerPreflight => PluginBuild
    case CoreQualification => AaPilot
    case GpuSmoke => MatrixLiveVerification
    case PluginBenchmark => PluginBuild
    case PluginMatrix => MatrixLiveVerification
    case MobilenetMatrix => MatrixLiveVerification
    case PublicFailure => CoreQualification
    case GpuFaults => MatrixLiveVerification
    case ReductionPrepare => GpuFaults
    case ReplayG2 => ReductionPrepare
    case ReplayG7 => ReductionPrepare
    case ReductionValidation => ReductionPrepare
    case MemorySeed => GpuFaults
    case Sanitizers => PluginBuild
    case Profiles => ProfilerPreflight
    case Sboms => MatrixLiveVerification
    case TerminalCleanup => FinalEvidence
    case _ => MatrixLock
  }

  /** The steps bound to corpus-materialization by one or more edges. */
  predicate IsCorpusBound(step: Step) {
    match step
    case Preflight | CpuVerify | GpuRuntimePreflight | RegistryBootstrap | CapacityPreflight | DependencyAudit
      | ReferenceEnvironment | CorpusMaterialization | WorkerImages | MatrixLock | MatrixLiveVerification
      | Sboms => false
    case _ => true
  }

  /** A direct dependency through which a bound step reaches corpus-materialization. */
  function CorpusRoute(step: Step): Step {
    match step
    case ProfilerPreflight => PluginBuild
    case PluginBenchmark => PluginBuild
    case PublicFailure => CoreQualification
    case ReplayG2 => ReductionPrepare
    case ReplayG7 => ReductionPrepare
    case ReductionValidation => ReductionPrepare
    case Sanitizers => PluginBuild
    case Profiles => ProfilerPreflight
    case TerminalCleanup => FinalEvidence
    case _ => CorpusMaterialization
  }

  // ---------------------------------------------------------------- bindings

  /** The edges the publication validator follows when `failureStep` is the failed domain step. */
  function PublishedEdges(failureStep: Step): Step -> seq<Step> {
    (s: Step) => if s.PublicFailure? then [failureStep] else StepDependencies(s)
  }

  predicate IsTerminal(step: Step) {
    step.FinalEvidence? || step.TerminalCleanup?
  }

  lemma MatrixRouteTable(step: Step)
    requires IsMatrixBound(step) && !step.FinalEvidence?
    ensures MatrixRoute(step) in StepDependencies(step)
  {
  }

  lemma MatrixRouteEnds()
    ensures MatrixRoute(FinalEvidence) == MatrixLock && !IsNonGate(MatrixLock)
  {
  }

  lemma MatrixRouteDescends(step: Step)
    requires IsMatrixBound(step)
    ensures var next := MatrixRoute(step);
            next == MatrixLock || (IsMatrixBound(next) && Rank(next) < Rank(step))
    ensures !step.TerminalCleanup? ==> !IsTerminal(MatrixRoute(step))
  {
  }

  lemma UnboundMatrixTargets()
    ensures !IsMatrixBound(MatrixLock) && IsMatrixBound(FinalEvidence) && IsMatrixBound(PublicFailure)
    ensures StepDependencies(FinalEvidence) == [] && StepDependencies(TerminalCleanup) == [FinalEvidence]
    ensures StepDependencies(PublicFailure) == DomainFailureSteps()
  {
  }

  lemma MatrixDomainBound(domain: Step)
    requires IsDomain(domain)
    ensures IsMatrixBound(domain) && Rank(domain) < Rank(PublicFailure)
  {
  }

  lemma MatrixUnboundEdges(step: Step, d: Step)
    requires !IsMatrixBound(step) && d in StepDependencies(step)
    ensures !IsMatrixBound(d) && d != MatrixLock
  {
    var deps := StepDependencies(step);
    var i :| 0 <= i < |deps| && deps[i] == d;
    assert |deps| <= 6;
  }

  lemma MatrixRouteIsEdge(step: Step, mode: Mode)
    requires IsMatrixBound(step)
    ensures MatrixRoute(step) in StaticDependencies(step, mode)
  {
    hide StepDependencies, Candidates, ModeSteps, IsMatrixBound, MatrixRoute, IsNonGate;
    UnboundMatrixTargets();
    MatrixRouteEnds();
    if step.FinalEvidence? {
      CandidatesOf(mode, MatrixLock);
      BindingTargetsInEveryMode(mode);
    } else {
      MatrixRouteTable(step);
    }
  }

  lemma CorpusRouteTable(step: Step)
    requires IsCorpusBound(step) && !step.FinalEvidence?
    ensures CorpusRoute(step) in StepDependencies(step)
  {
  }

  lemma CorpusRouteEnds()
    ensures CorpusRoute(FinalEvidence) == CorpusMaterialization && !IsNonGate(CorpusMaterialization)
  {
  }

  lemma CorpusRouteDescends(step: Step)
    requires IsCorpusBound(step)
    ensures var next := CorpusRoute(step);
            next == CorpusMaterialization || (IsCorpusBound(next) && Rank(next) < Rank(step))
    ensures !step.TerminalCleanup? ==> !IsTerminal(CorpusRoute(step))
  {
  }

  lemma UnboundCorpusTargets()
    ensures !IsCorpusBound(CorpusMaterialization) && IsCorpusBound(FinalEvidence) && IsCorpusBound(PublicFailure)
    ensures StepDependencies(FinalEvidence) == [] && StepDependencies(TerminalCleanup) == [FinalEvidence]
    ensures StepDependencies(PublicFailure) == DomainFailureSteps()
  {
  }

  lemma CorpusDomainBound(domain: Step)
    requires IsDomain(domain)
    ensures IsCorpusBound(domain) && Rank(domain) < Rank(PublicFailure)
  {
  }

  lemma CorpusUnboundEdges(step: Step, d: Step)
    requires !IsCorpusBound(step) && d in StepDependencies(step)
    ensures !IsCorpusBound(d) && d != CorpusMaterialization
  {
    var deps := StepDependencies(step);
    var i :| 0 <= i < |deps| && deps[i] == d;
    assert |deps| <= 6;
  }

  lemma CorpusRouteIsEdge(step: Step, mode: Mode)
    requires IsCorpusBound(step)
    ensures CorpusRoute(step) in StaticDependencies(step, mode)
  {
    hide StepDependencies, Candidates, ModeSteps, IsCorpusBound, CorpusRoute, IsNonGate;
    UnboundCorpusTargets();
    CorpusRouteEnds();
    if step.FinalEvidence? {
      CandidatesOf(mode, CorpusMaterialization);
      BindingTargetsInEveryMode(mode);
    } else {
      CorpusRouteTable(step);
    }
  }

  lemma BindingTargetsInEveryMode(mode: Mode)
    ensures MatrixLock in ModeSteps(mode) && CorpusMaterialization in ModeSteps(mode)
  {
    FullPositions();
    SmokeMembers(MatrixLock);
    SmokeMembers(CorpusMaterialization);
    SanitizerMembers(MatrixLock);
    SanitizerMembers(CorpusMaterialization);
  }

  /** The engine's bindings, in any mode, are exactly the two tables above. */
  lemma StaticMatrixBinding(step: Step, mode: Mode)
    ensures Reaches(StaticEdges(mode), step, MatrixLock) <==> IsMatrixBound(step)
  {
    hide StepDependencies, Candidates, IsMatrixBound, MatrixRoute, Rank;
    UnboundMatrixTargets();
    var edges := StaticEdges(mode);
    var legs := set s: Step | IsMatrixBound(s);
    if step in legs {
      forall x {:trigger edges(x)} | x in legs
        ensures exists d :: d in edges(x) && (d == MatrixLock || (d in legs && Rank(d) < Rank(x)))
      {
        MatrixRouteIsEdge(x, mode);
        MatrixRouteDescends(x);
        assert MatrixRoute(x) in edges(x);
      }
      LegsReach(edges, legs, Rank, MatrixLock, step);
    } else {
      var region := set s: Step | !IsMatrixBound(s) && s != MatrixLock;
      forall n, d | n !in legs && d in edges(n) ensures d in region {
        MatrixUnboundEdges(n, d);
      }
      RegionMisses(edges, region, step, MatrixLock);
    }
  }

  lemma StaticCorpusBinding(step: Step, mode: Mode)
    ensures Reaches(StaticEdges(mode), step, CorpusMaterialization) <==> IsCorpusBound(step)
  {
    hide StepDependencies, Candidates, IsCorpusBound, CorpusRoute, Rank;
    UnboundCorpusTargets();
    var edges := StaticEdges(mode);
    var legs := set s: Step | IsCorpusBound(s);
    if step in legs {
      forall x {:trigger edges(x)} | x in legs
        ensures exists d :: d in edges(x) && (d == CorpusMaterialization || (d in legs && Rank(d) < Rank(x)))
      {
        CorpusRouteIsEdge(x, mode);
        CorpusRouteDescends(x);
        assert CorpusRoute(x) in edges(x);
      }
      LegsReach(edges, legs, Rank, CorpusMaterialization, step);
    } else {
      var region := set s: Step | !IsCorpusBound(s) && s != CorpusMaterialization;
      forall n, d | n !in legs && d in edges(n) ensures d in region {
        CorpusUnboundEdges(n, d);
      }
      RegionMisses(edges, region, step, CorpusMaterialization);
    }
  }

  /** The validator's bindings: the same, except that the terminal steps have lost their dependencies. */
  lemma PublishedBindings(step: Step, failureStep: Step)
    requires IsDomain(failureStep)
    ensures Reaches(PublishedEdges(failureStep), step, MatrixLock) <==> IsMatrixBound(step) && !IsTerminal(step)
    ensures Reaches(PublishedEdges(failureStep), step, CorpusMaterialization)
            <==> IsCorpusBound(step) && !IsTerminal(step)
  {
    PublishedMatrixBinding(step, failureStep);
    PublishedCorpusBinding(step, failureStep);
  }

  lemma PublishedMatrixBinding(step: Step, failureStep: Step)
    requires IsDomain(failureStep)
    ensures Reaches(PublishedEdges(failureStep), step, MatrixLock) <==> IsMatrixBound(step) && !IsTerminal(step)
  {
    hide StepDependencies, IsMatrixBound, MatrixRoute, Rank;
    UnboundMatrixTargets();
    var edges := PublishedEdges(failureStep);
    var legs := set s: Step | IsMatrixBound(s) && !IsTerminal(s);
    if step in legs {
      forall x {:trigger edges(x)} | x in legs
        ensures exists d :: d in edges(x) && (d == MatrixLock || (d in legs && Rank(d) < Rank(x)))
      {
        MatrixRouteTable(x);
        MatrixRouteDescends(x);
        MatrixDomainBound(failureStep);
        var d := if x.PublicFailure? then failureStep else MatrixRoute(x);
        assert d in edges(x) && (d == MatrixLock || (d in legs && Rank(d) < Rank(x)));
      }
      LegsReach(edges, legs, Rank, MatrixLock, step);
    } else {
      var region := set s: Step | s !in legs && s != MatrixLock;
      forall n, d | n !in legs && d in edges(n) ensures d in region {
        if !IsTerminal(n) { MatrixUnboundEdges(n, d); }
      }
      RegionMisses(edges, region, step, MatrixLock);
    }
  }

  lemma PublishedCorpusBinding(step: Step, failureStep: Step)
    requires IsDomain(failureStep)
    ensures Reaches(PublishedEdges(failureStep), step, CorpusMaterialization)
            <==> IsCorpusBound(step) && !IsTerminal(step)
  {
    hide StepDependencies, IsCorpusBound, CorpusRoute, Rank;
    UnboundCorpusTargets();
    var edges := PublishedEdges(failureStep);
    var legs := set s: Step | IsCorpusBound(s) && !IsTerminal(s);
    if step in legs {
      forall x {:trigger edges(x)} | x in legs
        ensures exists d :: d in edges(x) && (d == CorpusMaterialization || (d in legs && Rank(d) < Rank(x)))
      {
        CorpusRouteTable(x);
        CorpusRouteDescends(x);
        CorpusDomainBound(failureStep);
        var d := if x.PublicFailure? then failureStep else CorpusRoute(x);
        assert d in edges(x) && (d == CorpusMaterialization || (d in legs && Rank(d) < Rank(x)));
      }
      LegsReach(edges, legs, Rank, CorpusMaterialization, step);
    } else {
      var region := set s: Step | s !in legs && s != CorpusMaterialization;
      forall n, d | n !in legs && d in edges(n) ensures d in region {
        if !IsTerminal(n) { CorpusUnboundEdges(n, d); }
      }
      RegionMisses(edges, region, step, CorpusMaterialization);
    }
  }

  lemma TerminalStepsAreBound()
    ensures forall s :: IsTerminal(s) ==> IsMatrixBound(s) && IsCorpusBound(s)
  {
  }

  /** The engine and the validator agree on both bindings of a step, whichever domain step failed,
      exactly when the step is not one of the two terminal steps. */
  lemma BindingsAgree(step: Step, failureStep: Step)
    requires IsDomain(failureStep)
    ensures (Reaches(StaticEdges(FullMode), step, MatrixLock)
             <==> Reaches(PublishedEdges(failureStep), step, MatrixLock))
            <==> !IsTerminal(step)
    ensures (Reaches(StaticEdges(FullMode), step, CorpusMaterialization)
             <==> Reaches(PublishedEdges(failureStep), step, CorpusMaterialization))
            <==> !IsTerminal(step)
  {
    hide Reaches;
    TerminalStepsAreBound();
    var mode := FullMode;
    StaticMatrixBinding(step, mode);
    StaticCorpusBinding(step, mode);
    PublishedBindings(step, failureStep);
  }

  /** The validator's worklist search; it raises exactly for the public failure step
      when no domain step is named as the failed one. */
  method StepIsBoundTo(step: Step, target: Step, failureStep: Option<Step>) returns (bound: Result<bool, ()>)
    ensures bound.Err? <==> step.PublicFailure? && !(failureStep.Some? && IsDomain(failureStep.value))
    ensures bound.Ok? ==>
              (bound.value <==> Reaches(PublishedEdges(failureStep.GetOr(CoreQualification)), step, target))
  {
    hide Reaches, DirectStepDependencies, PublishedEdges;
    ghost var nodes := set s: Step | !s.PublicFailure?;
    var lookup := (s: Step) => DirectStepDependencies(s, failureStep);
    forall n, d | d in Total(lookup)(n) ensures d in nodes {
      NothingDependsOnPublicFailure(n, failureStep, d);
    }
    forall s ensures lookup(s).None? <==> s.PublicFailure? && !(failureStep.Some? && IsDomain(failureStep.value)) {
      LookupIsTable(failureStep, s);
    }
    bound := IsBoundTo(lookup, step, target, nodes);
    if bound.Ok? {
      ghost var edges := PublishedEdges(failureStep.GetOr(CoreQualification));
      forall s | s == step || s in nodes ensures Total(lookup)(s) == edges(s) {
        LookupIsTable(failureStep, s);
      }
      SameEdgesSameReach(Total(lookup), edges, nodes, step, target);
    }
  }

  lemma LookupIsTable(failureStep: Option<Step>, s: Step)
    ensures DirectStepDependencies(s, failureStep).None?
            <==> s.PublicFailure? && !(failureStep.Some? && IsDomain(failureStep.value))
    ensures DirectStepDependencies(s, failureStep).Some? ==>
              DirectStepDependencies(s, failureStep).value
              == PublishedEdges(failureStep.GetOr(CoreQualification))(s)
  {
    hide StepDependencies;
  }

  lemma NothingDependsOnPublicFailure(step: Step, failureStep: Option<Step>, d: Step)
    requires d in DirectStepDependencies(step, failureStep).GetOr([])
    ensures !d.PublicFailure?
  {
    hide StepDependencies;
    if !step.PublicFailure? { TableDescends(step, d); }
  }

  // ---------------------------------------------------------------- order of one mode

  /** The static graph of a mode, sorted: it never stalls, so every mode can be reconciled. */
  method TopologicalSteps(mode: Mode) returns (order: seq<Step>)
    ensures forall s :: s in order <==> s in ModeSteps(mode)
    ensures Sequenced(StaticEdges(mode), StepSet(mode), order)
  {
    forall s, d | s in StepSet(mode) && d in StaticEdges(mode)(s) ensures d in StepSet(mode) {
      ModeClosed(mode, s, d);
    }
    forall a, b | NameRank(a) == NameRank(b) ensures a == b {
      NamesAreDistinct(a, b);
    }
    var result := TopologicalOrder(StaticEdges(mode), StepSet(mode), NameRank);
    StaticGraphIsAcyclic(mode);
    order := result.value;
  }

  lemma StaticGraphIsAcyclic(mode: Mode)
    ensures !Cyclic(StaticEdges(mode), StepSet(mode))
  {
    hide StaticEdges, StepSet, Rank;
    var edges := StaticEdges(mode);
    if Cyclic(edges, StepSet(mode)) {
      var n :| n in StepSet(mode) && Reaches(edges, n, n);
      var p :| IsPath(edges, p) && p[0] == n && p[|p| - 1] == n;
      RanksFallAlongPaths(mode, p);
    }
  }

  lemma {:induction false} RanksFallAlongPaths(mode: Mode, p: seq<Step>)
    requires IsPath(StaticEdges(mode), p)
    ensures Rank(p[|p| - 1]) < Rank(p[0])
    decreases |p|
  {
    hide StaticDependencies, Rank;
    var edges := StaticEdges(mode);
    assert p[1] in edges(p[0]);
    EdgesDescend(p[0], p[1], mode);
    if |p| > 2 {
      assert IsPath(edges, p[1..]);
      RanksFallAlongPaths(mode, p[1..]);
    }
  }

  /** Edges to the steps that decide whether public-failure is ready before gpu-faults is. */
  lemma TerminalEdges(mode: Mode)
    ensures CoreQualification in StepDependencies(GpuFaults) && PluginMatrix in StepDependencies(GpuFaults)
    ensures forall d :: d in StepDependencies(MobilenetMatrix) ==> d in StepDependencies(PluginMatrix)
    ensures StaticDependencies(PublicFailure, mode) == [CoreQualification, PluginMatrix, MobilenetMatrix]
  {
  }

  /** Public-failure lies in an earlier layer than final-evidence, although no static edge says so. */
  lemma PublicFailureLayer(mode: Mode, k: nat)
    requires mode.FullMode?
    requires FinalEvidence in Layer(StaticEdges(mode), StepSet(mode), k)
    ensures 0 < k && PublicFailure in Layer(StaticEdges(mode), StepSet(mode), k - 1)
  {
    var edges, nodes := StaticEdges(mode), StepSet(mode);
    TerminalEdges(mode);
    TerminalSteps(mode);
    PublicFailureReady(edges, nodes, k, FinalEvidence, GpuFaults, CoreQualification, PluginMatrix, MobilenetMatrix,
                       PublicFailure);
  }

  lemma TerminalSteps(mode: Mode)
    requires mode.FullMode?
    ensures GpuFaults in StaticDependencies(FinalEvidence, mode)
    ensures MobilenetMatrix in StepSet(mode) && PublicFailure in StepSet(mode)
  {
    hide FullModeSteps, Candidates;
    FullPositions();
    CandidatesOf(mode, GpuFaults);
  }

  /** The layer argument, for any graph with the same few edges. */
  lemma PublicFailureReady<T(!new)>(edges: T -> seq<T>, nodes: set<T>, k: nat,
                                    final: T, faults: T, core: T, plugin: T, mobilenet: T, public: T)
    requires final in Layer(edges, nodes, k) && mobilenet in nodes && public in nodes
    requires faults in edges(final) && core in edges(faults) && plugin in edges(faults)
    requires forall d :: d in edges(mobilenet) ==> d in edges(plugin)
    requires edges(public) == [core, plugin, mobilenet]
    ensures 0 < k && public in Layer(edges, nodes, k - 1)
  {
    LayerBelow(edges, nodes, k, final, faults);
    LayerBelow(edges, nodes, k - 1, faults, core);
    LayerBelow(edges, nodes, k - 1, faults, plugin);
    forall d | d in edges(mobilenet) ensures d in Layer(edges, nodes, k - 3) {
      LayerBelow(edges, nodes, k - 2, plugin, d);
    }
    assert mobilenet in Layer(edges, nodes, k - 2);
  }

  lemma StepsHaveLayers(mode: Mode, step: Step)
    requires step in StepSet(mode)
    ensures step in Layer(StaticEdges(mode), StepSet(mode), Rank(step) + 1)
  {
    hide StaticDependencies, ModeSteps, Rank;
    var edges, nodes := StaticEdges(mode), StepSet(mode);
    forall s, d | s in nodes && d in edges(s) ensures d in nodes && Rank(d) < Rank(s) {
      ModeClosed(mode, s, d);
      EdgesDescend(s, d, mode);
    }
    DescendingNodesHaveLayers(edges, nodes, Rank, step);
  }

  /** In every full-mode order public-failure precedes final-evidence. */
  lemma {:induction false} PublicFailureBeforeFinalEvidence(mode: Mode, order: seq<Step>, i: nat)
    requires mode.FullMode?
    requires forall s :: s in order <==> s in ModeSteps(mode)
    requires Sequenced(StaticEdges(mode), StepSet(mode), order)
    requires i < |order| && order[i] == FinalEvidence
    ensures PublicFailure in order[..i]
  {
    hide StaticDependencies, FullModeSteps, Rank, Layer, DependenciesFirst, NoDuplicates;
    var edges, nodes := StaticEdges(mode), StepSet(mode);
    FullPositions();
    assert PublicFailure in order;
    var j :| 0 <= j < |order| && order[j] == PublicFailure;
    if i < j {
      StepsHaveLayers(mode, PublicFailure);
      var first := FirstLayer(edges, nodes, PublicFailure, Rank(PublicFailure) + 1);
      assert order[i] in Layer(edges, nodes, first);
      PublicFailureLayer(mode, first);
    }
  }

  /** Every state-dependent dependency comes earlier in the static order, whatever the state says failed. */
  lemma ResolvedDependenciesComeEarlier(mode: Mode, order: seq<Step>, i: nat,
                                        failedDomain: Option<Step>, failedCandidate: Option<Step>, d: Step)
    requires forall s :: s in order <==> s in ModeSteps(mode)
    requires Sequenced(StaticEdges(mode), StepSet(mode), order)
    requires i < |order|
    requires failedDomain.Some? ==> IsDomain(failedDomain.value)
    requires failedCandidate.Some? ==> failedCandidate.value in Candidates(mode)
    requires d in ResolvedDependencies(order[i], mode, failedDomain, failedCandidate)
    ensures d in order[..i]
  {
    hide StaticDependencies, FullModeSteps, ResolvedDependencies;
    var edges := StaticEdges(mode);
    assert order[i] in ModeSteps(mode);
    if order[i].FinalEvidence? && d.PublicFailure? {
      FinalEvidenceMeansFullMode(mode);
      PublicFailureBeforeFinalEvidence(mode, order, i);
    } else {
      ResolvedIsStatic(order[i], mode, failedDomain, failedCandidate, d);
      assert d in edges(order[i]);
    }
  }

  lemma FinalEvidenceMeansFullMode(mode: Mode)
    requires FinalEvidence in ModeSteps(mode)
    ensures mode.FullMode?
  {
    SmokeMembers(FinalEvidence);
    SanitizerMembers(FinalEvidence);
  }

  /** Apart from the final edge to public-failure, resolving the state only removes edges. */
  lemma ResolvedIsStatic(step: Step, mode: Mode, failedDomain: Option<Step>, failedCandidate: Option<Step>, d: Step)
    requires failedDomain.Some? ==> IsDomain(failedDomain.value)
    requires failedCandidate.Some? ==> failedCandidate.value in Candidates(mode)
    requires d in ResolvedDependencies(step, mode, failedDomain, failedCandidate)
    ensures d in StaticDependencies(step, mode) || (step.FinalEvidence? && d.PublicFailure?)
  {
    hide Candidates, StepDependencies;
  }

  lemma ResolvedDescends(step: Step, mode: Mode, failedDomain: Option<Step>, failedCandidate: Option<Step>, d: Step)
    requires failedDomain.Some? ==> IsDomain(failedDomain.value)
    requires failedCandidate.Some? ==> failedCandidate.value in Candidates(mode)
    requires d in ResolvedDependencies(step, mode, failedDomain, failedCandidate)
    ensures Rank(d) < Rank(step)
  {
    hide StaticDependencies, ResolvedDependencies;
    ResolvedIsStatic(step, mode, failedDomain, failedCandidate, d);
    if !(step.FinalEvidence? && d.PublicFailure?) {
      EdgesDescend(step, d, mode);
    }
  }

  // ---------------------------------------------------------------- published prefixes

  lemma ThroughMembers(key: Step -> nat, steps: seq<Step>, last: Step, s: Step)
    requires last in steps && Ascending(key, steps)
    ensures s in Through(steps, last) <==> s in steps && key(s) <= key(last)
  {
    IndexOfInRange(steps, last);
    var at := IndexOf(steps, last);
    if s in steps {
      var i :| 0 <= i < |steps| && steps[i] == s;
      if i <= at {
        assert steps[..at + 1][i] == s;
        assert i == at || key(steps[i]) < key(steps[at]);
      } else {
        forall j | 0 <= j <= at ensures steps[j] != s {
          assert key(steps[j]) < key(steps[i]);
        }
      }
    }
  }

  lemma {:induction false} GatingAscends(key: Step -> nat, steps: seq<Step>)
    requires Ascending(key, steps)
    ensures Ascending(key, Gating(steps))
  {
    if steps != [] {
      var rest := Gating(steps[1..]);
      GatingAscends(key, steps[1..]);
      GatingKeeps(steps[1..]);
      if !IsNonGate(steps[0]) {
        forall j | 0 <= j < |rest| ensures key(steps[0]) < key(rest[j]) {
          assert rest[j] in steps[1..];
        }
        assert Gating(steps) == [steps[0]] + rest;
      } else {
        assert Gating(steps) == rest;
      }
    }
  }

  lemma FullModeAscends(mode: Mode)
    requires mode.FullMode?
    ensures Ascending(FullPosition, ModeSteps(mode))
  {
    hide FullPosition, FullModeSteps;
    FullPositions();
  }

  /** Which steps a publication retains. */
  lemma PublishedMembers(status: PublicationStatus, failureStep: Option<Step>, s: Step)
    requires ExpectedPublicationSteps(status, failureStep).Some?
    ensures s in ExpectedPublicationSteps(status, failureStep).value <==>
            if status.PublishedPassed? then !IsNonGate(s) && s != GpuSmoke
            else s == PublicFailure
                 || (!IsNonGate(s) && s != GpuSmoke && FullPosition(s) <= FullPosition(failureStep.value))
  {
    hide ModeSteps, Gating, IsNonGate, FullPosition, Through, FullModeSteps;
    NonGates();
    var mode := FullMode;
    CandidatesOf(mode, s);
    if status.PublishedFailed? {
      FullModeAscends(mode);
      GatingAscends(FullPosition, ModeSteps(mode));
      CandidatesOf(mode, failureStep.value);
      ThroughMembers(FullPosition, Candidates(mode), failureStep.value, s);
    }
  }

  /** A passed publication names no failed step, a failed one names one of the domain steps. */
  lemma PublicationNames(status: PublicationStatus, failureStep: Option<Step>)
    ensures ExpectedPublicationSteps(status, failureStep).Some?
            <==> if status.PublishedPassed? then failureStep.None?
                 else failureStep == Some(CoreQualification) || failureStep == Some(PluginMatrix)
                      || failureStep == Some(MobilenetMatrix)
  {
    hide Candidates, FailedPublicationSteps;
  }

  /** The retained steps stand in the order of the full mode. */
  lemma PublishedOrder(status: PublicationStatus, failureStep: Option<Step>)
    requires ExpectedPublicationSteps(status, failureStep).Some?
    ensures Ascending(FullPosition, ExpectedPublicationSteps(status, failureStep).value)
  {
    hide FullModeSteps, FullPosition, Through, IsDomain;
    FullModeAscends(FullMode);
    GatingAscends(FullPosition, ModeSteps(FullMode));
    if status.PublishedFailed? {
      var candidates, f := Candidates(FullMode), failureStep.value;
      CandidatesOf(FullMode, f);
      DomainBeforePublicFailure(f);
      ThroughAscends(candidates, f);
      forall s | s in Through(candidates, f) ensures FullPosition(s) < FullPosition(PublicFailure) {
        ThroughMembers(FullPosition, candidates, f, s);
      }
    }
  }

  lemma ThroughAscends(steps: seq<Step>, last: Step)
    requires last in steps && Ascending(FullPosition, steps)
    ensures Ascending(FullPosition, Through(steps, last))
  {
    hide FullPosition, IndexOf;
    IndexOfInRange(steps, last);
  }

  lemma DomainBeforePublicFailure(f: Step)
    requires IsDomain(f)
    ensures !IsNonGate(f) && f != GpuSmoke && FullPosition(f) < FullPosition(PublicFailure)
  {
  }

  /** Gates only depend on earlier gates. */
  lemma GateEdges(step: Step, d: Step)
    requires !IsNonGate(step) && step != GpuSmoke && d in StepDependencies(step)
    ensures !IsNonGate(d) && d != GpuSmoke && FullPosition(d) < FullPosition(step)
  {
    hide FullPosition, StepDependencies;
    TableDescends(step, d);
  }

  lemma NonGates()
    ensures forall s :: IsNonGate(s) <==> s.PublicFailure? || s.FinalEvidence? || s.TerminalCleanup?
    ensures forall s :: IsDomain(s) ==> !IsNonGate(s)
  {
  }

  /** Each published prefix is closed under the direct dependencies its markers must name. */
  lemma PublishedPrefixClosed(status: PublicationStatus, failureStep: Option<Step>, s: Step)
    requires ExpectedPublicationSteps(status, failureStep).Some?
    requires s in ExpectedPublicationSteps(status, failureStep).value
    ensures DirectStepDependencies(s, failureStep).Some?
    ensures forall d :: d in DirectStepDependencies(s, failureStep).value ==>
              d in ExpectedPublicationSteps(status, failureStep).value
  {
    hide FailedPublicationSteps, Candidates, StepDependencies, FullPosition, IsNonGate;
    NonGates();
    PublishedMembers(status, failureStep, s);
    forall d | d in DirectStepDependencies(s, failureStep).value
      ensures d in ExpectedPublicationSteps(status, failureStep).value
    {
      PublishedMembers(status, failureStep, d);
      if !s.PublicFailure? { GateEdges(s, d); }
    }
  }
}
