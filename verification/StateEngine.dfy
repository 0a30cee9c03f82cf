/** The commands of the resume engine on one state root: record a marker, verify a marker, reconcile. */
module StateEngine {
  import opened Results
  import opened Graphs
  import opened Gates
  import opened GateProperties
  import opened MemoizedSearch
  import opened StateTree
  import opened Markers
  import opened Authority
  import opened Relocation
  import opened Reconcile
  import opened ReconcileProperties

  datatype RecordError = UnknownInMode | LookupRaised | DependencyInvalid(dependency: Step) | VerificationLeft
    | PayloadRefused(failure: Failure) | MarkerUnwritable

  datatype ReconcileError = VerificationRaised | StaleNamesExhausted | StaleNotDirectory

  datatype Report = Report(invalid: seq<Step>, valid: seq<Step>, root: Path, moves: seq<Shift>)

  /** Publish a file atomically, creating its parent directories. */
  function WriteFile(t: Tree, p: Path, content: Bytes): Tree {
    MakeParents(t, p)[p := File(content)]
  }

  predicate Unwritable(t: Tree, p: Path) {
    (p in t && t[p].Directory?) || exists k :: 0 < k < |p| && p[..k] in t && !t[p[..k]].Directory?
  }

  /** A marker cannot be written when a directory stands in its place, or something other than a directory in the
      place of `done`. */
  lemma UnwritableMeans(tables: Tables, t: Tree, step: Step)
    ensures Unwritable(t, MarkerPath(tables, step)) <==>
              var path := ["done", tables.name(step) + ".json"];
              (path in t && t[path].Directory?) || (["done"] in t && !t[["done"]].Directory?)
  {
    var path := MarkerPath(tables, step);
    assert path[..1] == ["done"];
  }

  /** Writing a marker leaves its file, a directory for it if there was none, and everything else as it was. */
  lemma WriteMeans(tables: Tables, t: Tree, step: Step, content: Bytes, p: Path)
    ensures var path, u := ["done", tables.name(step) + ".json"], WriteFile(t, MarkerPath(tables, step), content);
            && u[path] == File(content)
            && ["done"] in u && (if ["done"] in t then u[["done"]] == t[["done"]] else u[["done"]] == Directory)
            && (p != path && p != ["done"] ==> (p in u <==> p in t) && (p in t ==> u[p] == t[p]))
  {
    var path := MarkerPath(tables, step);
    assert path[..1] == ["done"];
    assert forall k: nat :: 0 < k < |path| ==> path[..k] == ["done"];
  }

  function StaleRoot(name: string): Path {
    ["stale", name]
  }

  ghost predicate FirstUnused(t: Tree, names: seq<string>, root: Path) {
    exists i :: 0 <= i < |names| && root == StaleRoot(names[i]) && (forall j :: 0 <= j < i ==> StaleRoot(names[j]) in t)
  }

  /** The first candidate name below `stale` that is not in use. */
  method UniqueStaleRoot(t: Tree, names: seq<string>) returns (root: Option<Path>)
    requires Rooted(t)
    ensures root.Some? ==> Fresh(t, root.value) && FirstUnused(t, names, root.value)
    ensures root.None? <==> forall i :: 0 <= i < |names| ==> StaleRoot(names[i]) in t
  {
    var i := 0;
    while i < |names|
      invariant 0 <= i <= |names|
      invariant forall j :: 0 <= j < i ==> StaleRoot(names[j]) in t
    {
      if StaleRoot(names[i]) !in t {
        forall p | p in t ensures !(StaleRoot(names[i]) <= p) {
          if StaleRoot(names[i]) <= p { AncestorPresent(t, StaleRoot(names[i]), p); }
        }
        return Some(StaleRoot(names[i]));
      }
      i := i + 1;
    }
    return None;
  }

  /** The first of the dependencies that does not verify, and its verdict. */
  ghost predicate FirstUnverified(run: Run, t: Tree, deps: seq<Step>, i: int, verdict: Verdict) {
    && 0 <= i < |deps| && Verify(run, t, deps[i]) == verdict && !verdict.Valid?
    && forall j :: 0 <= j < i ==> Verifies(run, t, deps[j])
  }

  /** A claim of the step, or its marker, is there. */
  ghost predicate HasEntries(tables: Tables, t: Tree, step: Step) {
    exists p :: (p in Claims(tables, step) || p == MarkerPath(tables, step)) && p in t
  }

  ghost predicate SomethingToMove(run: Run, t: Tree) {
    exists s :: s in ModeSteps(run.mode) && !Verifies(run, t, s) && HasEntries(run.tables, t, s)
  }

  ghost predicate SomeRaises(run: Run, t: Tree) {
    exists s :: s in ModeSteps(run.mode) && Verify(run, t, s).Raised?
  }

  ghost predicate AllUsed(t: Tree, names: seq<string>) {
    forall name :: name in names ==> ["stale", name] in t
  }

  /** No directory can be made below `stale`. */
  ghost predicate StaleBlocked(t: Tree) {
    ["stale"] in t && !t[["stale"]].Directory?
  }

  lemma EntriesAreSources(tables: Tables, t: Tree, root: Path, step: Step)
    ensures HasEntries(tables, t, step) <==> exists k :: 0 <= k < |StepShifts(tables, root, step)|
                                                         && StepShifts(tables, root, step)[k].source in t
  {
    hide Claims, MarkerPath, StepShifts;
    var shifts, claims := StepShifts(tables, root, step), Claims(tables, step);
    StepShiftCount(tables, root, step);
    if p :| (p in claims || p == MarkerPath(tables, step)) && p in t {
      var k := if p in claims then IndexOfClaim(claims, p) else |claims|;
      ShiftOrigin(tables, root, step, k);
      assert shifts[k].source in t;
    }
    if k :| 0 <= k < |shifts| && shifts[k].source in t {
      ShiftOrigin(tables, root, step, k);
    }
  }

  function IndexOfClaim(claims: seq<Path>, p: Path): (k: nat)
    requires p in claims
    ensures k < |claims| && claims[k] == p
  {
    if claims[0] == p then 0 else 1 + IndexOfClaim(claims[1..], p)
  }

  /** The steps of an order that verify, or that do not, in this order. */
  ghost function Chosen(run: Run, t: Tree, order: seq<Step>, wanted: bool): seq<Step> {
    if order == [] then []
    else
      var last := order[|order| - 1];
      Chosen(run, t, order[..|order| - 1], wanted) + if Verifies(run, t, last) == wanted then [last] else []
  }

  /** Both lists follow one order of the static graph. */
  ghost predicate InStaticOrder(run: Run, t: Tree, invalid: seq<Step>, valid: seq<Step>) {
    exists order :: Sequenced(StaticEdges(run.mode), StepSet(run.mode), order)
                    && invalid == Chosen(run, t, order, false) && valid == Chosen(run, t, order, true)
  }

  lemma NothingChosen(run: Run, t: Tree, order: seq<Step>)
    ensures Chosen(run, t, order[..0], false) == [] && Chosen(run, t, order[..0], true) == []
  {
  }

  lemma ChosenNext(run: Run, t: Tree, order: seq<Step>, i: nat)
    requires i < |order|
    ensures forall wanted :: Chosen(run, t, order[..i + 1], wanted)
                             == Chosen(run, t, order[..i], wanted)
                                + if Verifies(run, t, order[i]) == wanted then [order[i]] else []
  {
    hide Verifies;
    assert order[..i + 1][..i] == order[..i];
  }

  lemma OrderFound(run: Run, t: Tree, order: seq<Step>)
    requires Sequenced(StaticEdges(run.mode), StepSet(run.mode), order)
    ensures InStaticOrder(run, t, Chosen(run, t, order, false), Chosen(run, t, order, true))
  {
    hide Verifies, Sequenced, StaticEdges, StepSet;
  }

  class StateRoot {
    var tree: Tree

    /** Verify a marker, its inventory and its dependency chain with a fresh memo. */
    method VerifyMarker(run: Run, step: Step) returns (verdict: Verdict)
      ensures verdict == Verify(run, tree, step)
    {
      var memo := new Memo();
      verdict := memo.Search(ChecksOf(run, tree), step);
    }

    /** Validate the direct dependencies and publish one marker. */
    method RecordMarker(run: Run, step: Step) returns (result: Result<Marker, RecordError>)
      modifies this
      ensures result.Err? ==> tree == old(tree)
      ensures result.Ok? <==>
                && step in ModeSteps(run.mode)
                && Dependencies(run, old(tree), step).Some?
                && (forall d :: d in Dependencies(run, old(tree), step).value ==> Verifies(run, old(tree), d))
                && Payload(run, old(tree), step).Ok?
                && !Unwritable(old(tree), MarkerPath(run.tables, step))
      ensures result == Err(UnknownInMode) <==> step !in ModeSteps(run.mode)
      ensures result == Err(LookupRaised) <==> step in ModeSteps(run.mode) && Dependencies(run, old(tree), step).None?
      ensures result == Err(VerificationLeft) ==>
                && Dependencies(run, old(tree), step).Some?
                && exists i :: FirstUnverified(run, old(tree), Dependencies(run, old(tree), step).value, i, Raised)
      ensures result.Err? && result.error.DependencyInvalid? ==>
                var deps := Dependencies(run, old(tree), step);
                && deps.Some?
                && exists i :: FirstUnverified(run, old(tree), deps.value, i, Invalid)
                               && result.error.dependency == deps.value[i]
      ensures result.Err? && result.error.PayloadRefused? ==> Payload(run, old(tree), step) == Err(result.error.failure)
      ensures result == Err(MarkerUnwritable) ==>
                Payload(run, old(tree), step).Ok? && Unwritable(old(tree), MarkerPath(run.tables, step))
      ensures result.Ok? ==>
                && Payload(run, old(tree), step) == Ok(result.value)
                && tree == WriteFile(old(tree), MarkerPath(run.tables, step), run.encode(result.value))
    {
      hide Dependencies, Payload, ModeSteps, CheckMarker, MarkerPath;
      if step !in ModeSteps(run.mode) {
        return Err(UnknownInMode);
      }
      var deps := Dependencies(run, tree, step);
      if deps.None? {
        return Err(LookupRaised);
      }
      for i := 0 to |deps.value|
        invariant tree == old(tree)
        invariant forall j :: 0 <= j < i ==> Verifies(run, old(tree), deps.value[j])
      {
        var verdict := VerifyMarker(run, deps.value[i]);
        if !verdict.Valid? {
          assert deps.value[i] in deps.value && !Verifies(run, tree, deps.value[i]);
          assert FirstUnverified(run, tree, deps.value, i, verdict);
          return Err(if verdict.Raised? then VerificationLeft else DependencyInvalid(deps.value[i]));
        }
      }
      var payload := Payload(run, tree, step);
      if payload.Err? {
        return Err(PayloadRefused(payload.error));
      }
      if Unwritable(tree, MarkerPath(run.tables, step)) {
        return Err(MarkerUnwritable);
      }
      tree := WriteFile(tree, MarkerPath(run.tables, step), run.encode(payload.value));
      return Ok(payload.value);
    }

    /** Verify every step of the mode in dependency order. */
    method Classify(run: Run) returns (result: Option<(seq<Step>, seq<Step>)>)
      ensures result.None? <==> exists s :: s in ModeSteps(run.mode) && Verify(run, tree, s).Raised?
      ensures result.Some? ==>
                && IsInvalidList(run, tree, result.value.0)
                && NoDuplicates(result.value.1)
                && (forall s :: s in result.value.1 <==> s in ModeSteps(run.mode) && Verifies(run, tree, s))
                && InStaticOrder(run, tree, result.value.0, result.value.1)
    {
      hide Dependencies, ModeSteps, CheckMarker, StaticEdges, StepSet, Verify, Sequenced, NoDuplicates, Chosen,
           InStaticOrder;
      var order := TopologicalSteps(run.mode);
      var validity: map<Step, bool> := map[];
      var invalid: seq<Step>, valid: seq<Step> := [], [];
      NothingDistinct();
      NothingChosen(run, tree, order);
      for i := 0 to |order|
        invariant forall j :: 0 <= j < i ==> order[j] in validity
        invariant forall s :: s in validity ==>
                    s in order[..i] && !Verify(run, tree, s).Raised? && (validity[s] <==> Verifies(run, tree, s))
        invariant forall s :: s in invalid <==> s in order[..i] && !Verifies(run, tree, s)
        invariant forall s :: s in valid <==> s in order[..i] && Verifies(run, tree, s)
        invariant NoDuplicates(invalid) && NoDuplicates(valid)
        invariant invalid == Chosen(run, tree, order[..i], false) && valid == Chosen(run, tree, order[..i], true)
      {
        var step := order[i];
        var deps := Dependencies(run, tree, step);
        RaisedMeans(run, tree, step);
        if deps.None? {
          return None;
        }
        LookupsNeverMiss(run, tree, order, i);
        var verdict := Invalid;
        if forall d :: d in deps.value ==> validity[d] {
          verdict := VerifyMarker(run, step);
          if verdict.Raised? {
            return None;
          }
        } else {
          RejectedWithoutSearch(run, tree, step);
        }
        validity := validity[step := verdict.Valid?];
        NextInOrder(run.mode, order, i);
        ChosenNext(run, tree, order, i);
        if verdict.Valid? {
          AppendDistinct(valid, step);
          valid := valid + [step];
        } else {
          AppendDistinct(invalid, step);
          invalid := invalid + [step];
        }
      }
      assert order[..|order|] == order;
      OrderFound(run, tree, order);
      return Some((invalid, valid));
    }

    /** Move the existing paths of one step aside, or only list them. */
    method MoveAside(shifts: seq<Shift>, dryRun: bool, blocked: bool, ghost start: Tree, ghost done: seq<Shift>,
                     ghost root: Path)
      returns (moved: Option<seq<Shift>>)
      requires Orderly(done + shifts, root)
      requires tree == if dryRun then start else MoveAll(start, done)
      requires !dryRun && blocked ==> tree == start
      modifies this
      ensures !dryRun && blocked ==> tree == start
      ensures moved.None? <==> !dryRun && blocked && exists k :: 0 <= k < |shifts| && shifts[k].source in start
      ensures moved.Some? ==>
                && Present(start, done + shifts) == Present(start, done) + moved.value
                && tree == if dryRun then start else MoveAll(start, done + shifts)
    {
      hide MoveTree, Orderly, Present, MoveAll;
      var moves: seq<Shift> := [];
      assert done + shifts[..0] == done;
      for k := 0 to |shifts|
        invariant Present(start, done + shifts[..k]) == Present(start, done) + moves
        invariant tree == if dryRun then start else MoveAll(start, done + shifts[..k])
        invariant !dryRun && blocked ==> tree == start && forall j :: 0 <= j < k ==> shifts[j].source !in start
      {
        assert done + shifts[..k + 1] == (done + shifts[..k]) + [shifts[k]];
        assert (done + shifts)[..|done| + k + 1] == (done + shifts[..k]) + [shifts[k]];
        OneMoreShift(start, done + shifts[..k], shifts[k], root, done + shifts);
        if shifts[k].source in tree {
          moves := moves + [shifts[k]];
          if !dryRun {
            if blocked {
              return None;
            }
            tree := MoveTree(tree, shifts[k].source, shifts[k].target);
          }
        }
      }
      assert done + shifts[..|shifts|] == done + shifts;
      return Some(moves);
    }

    /** Move every invalid step of the mode aside; a dry run only reports the moves. */
    method Reconcile(run: Run, staleNames: seq<string>, dryRun: bool) returns (result: Result<Report, ReconcileError>)
      requires Accepted(run.tables) && Rooted(tree)
      modifies this
      ensures Rooted(tree)
      ensures result.Err? ==> tree == old(tree)
      ensures result == Err(VerificationRaised) <==> SomeRaises(run, old(tree))
      ensures result == Err(StaleNamesExhausted) <==> !SomeRaises(run, old(tree)) && AllUsed(old(tree), staleNames)
      ensures result == Err(StaleNotDirectory)
              <==> !SomeRaises(run, old(tree)) && !AllUsed(old(tree), staleNames)
                   && !dryRun && StaleBlocked(old(tree)) && SomethingToMove(run, old(tree))
      ensures result.Ok? ==>
                var report := result.value;
                && IsInvalidList(run, old(tree), report.invalid)
                && (forall s :: s in report.valid <==> s in ModeSteps(run.mode) && Verifies(run, old(tree), s))
                && InStaticOrder(run, old(tree), report.invalid, report.valid)
                && FirstUnused(old(tree), staleNames, report.root)
                && Fresh(old(tree), report.root)
                && report.moves == Present(old(tree), Shifts(run.tables, report.root, report.invalid))
                && tree == if dryRun then old(tree)
                           else MoveAll(old(tree), Shifts(run.tables, report.root, report.invalid))
    {
      hide Verify, Verifies, ModeSteps, StepShifts, Shifts, MoveAll, Present, IsInvalidList, Accepted, Fresh,
           FirstUnused, Orderly, HasEntries, InStaticOrder;
      var steps := Classify(run);
      if steps.None? {
        return Err(VerificationRaised);
      }
      var invalid, valid := steps.value.0, steps.value.1;
      var stale := UniqueStaleRoot(tree, staleNames);
      if stale.None? {
        return Err(StaleNamesExhausted);
      }
      var root := stale.value;
      var blocked := ["stale"] in tree && !tree[["stale"]].Directory?;
      var moves: seq<Shift> := [];
      NothingMovedYet(run.tables, tree, root, invalid);
      for i := 0 to |invalid|
        invariant moves == Present(old(tree), Shifts(run.tables, root, invalid[..i]))
        invariant tree == if dryRun then old(tree) else MoveAll(old(tree), Shifts(run.tables, root, invalid[..i]))
        invariant !dryRun && blocked ==> tree == old(tree)
        invariant !dryRun && blocked ==> forall j :: 0 <= j < i ==> !HasEntries(run.tables, old(tree), invalid[j])
      {
        ghost var done := Shifts(run.tables, root, invalid[..i]);
        ShiftsOfPrefix(run.tables, root, invalid, i);
        PrefixIsOrderly(run, old(tree), staleNames, root, invalid, i + 1);
        var moved := MoveAside(StepShifts(run.tables, root, invalid[i]), dryRun, blocked, old(tree), done, root);
        EntriesAreSources(run.tables, old(tree), root, invalid[i]);
        if moved.None? {
          InvalidEntriesToMove(run, old(tree), invalid, i);
          return Err(StaleNotDirectory);
        }
        moves := moves + moved.value;
      }
      assert invalid[..|invalid|] == invalid;
      if !dryRun && !blocked {
        PrefixIsOrderly(run, old(tree), staleNames, root, invalid, |invalid|);
        RootParents(old(tree), staleNames, root);
        MoveAllKeepsRooted(old(tree), Shifts(run.tables, root, invalid), root);
      }
      if !dryRun && blocked {
        NothingToMove(run, old(tree), invalid);
      }
      return Ok(Report(invalid, valid, root, moves));
    }
  }

  lemma InvalidEntriesToMove(run: Run, t: Tree, invalid: seq<Step>, i: nat)
    requires IsInvalidList(run, t, invalid) && i < |invalid| && HasEntries(run.tables, t, invalid[i])
    ensures SomethingToMove(run, t)
  {
    hide ModeSteps, Verifies, HasEntries, NoDuplicates;
    assert invalid[i] in invalid;
  }

  lemma NothingToMove(run: Run, t: Tree, invalid: seq<Step>)
    requires IsInvalidList(run, t, invalid)
    requires forall j :: 0 <= j < |invalid| ==> !HasEntries(run.tables, t, invalid[j])
    ensures !SomethingToMove(run, t)
  {
    hide ModeSteps, Verifies, HasEntries, NoDuplicates;
  }

  lemma NothingMovedYet(tables: Tables, t: Tree, root: Path, steps: seq<Step>)
    ensures Present(t, Shifts(tables, root, steps[..0])) == [] && MoveAll(t, Shifts(tables, root, steps[..0])) == t
  {
  }

  lemma PrefixIsOrderly(run: Run, start: Tree, names: seq<string>, root: Path, invalid: seq<Step>, n: nat)
    requires Accepted(run.tables) && IsInvalidList(run, start, invalid) && FirstUnused(start, names, root)
    requires n <= |invalid|
    ensures Orderly(Shifts(run.tables, root, invalid[..n]), root)
  {
    hide Verifies, Coherent, DistinctNames, Shifts, Orderly, ModeSteps;
    ShiftsOrderly(run.tables, root, invalid[..n]);
  }

  lemma RootParents(t: Tree, names: seq<string>, root: Path)
    requires FirstUnused(t, names, root)
    requires ["stale"] in t ==> t[["stale"]].Directory?
    ensures ParentsFree(t, root)
  {
    assert root[..1] == ["stale"];
  }

  lemma ShiftsOfPrefix(tables: Tables, root: Path, steps: seq<Step>, i: nat)
    requires i < |steps|
    ensures Shifts(tables, root, steps[..i + 1])
            == Shifts(tables, root, steps[..i]) + StepShifts(tables, root, steps[i])
  {
    hide StepShifts;
    assert steps[..i + 1][..i] == steps[..i];
  }

  /** One more rename: reported when its source existed at the start, performed when it exists now; the same thing. */
  lemma OneMoreShift(t: Tree, done: seq<Shift>, next: Shift, root: Path, all: seq<Shift>)
    requires Orderly(all, root) && done + [next] <= all
    ensures Present(t, done + [next]) == Present(t, done) + (if next.source in t then [next] else [])
    ensures next.source in MoveAll(t, done) <==> next.source in t
    ensures MoveAll(t, done + [next]) ==
            if next.source in t then MoveTree(MoveAll(t, done), next.source, next.target) else MoveAll(t, done)
  {
    hide MoveTree;
    var more := done + [next];
    assert more[..|more| - 1] == done;
    assert more == all[..|more|];
    ShorterIsOrderly(all, root, |more|);
    SourceStillThere(t, more, root);
  }

  lemma NothingDistinct()
    ensures NoDuplicates<Step>([])
  {
  }

  lemma AppendDistinct(steps: seq<Step>, step: Step)
    requires NoDuplicates(steps) && step !in steps
    ensures NoDuplicates(steps + [step])
  {
  }

  lemma NextInOrder(mode: Mode, order: seq<Step>, i: nat)
    requires Sequenced(StaticEdges(mode), StepSet(mode), order) && i < |order|
    ensures order[..i + 1] == order[..i] + [order[i]] && order[i] !in order[..i]
  {
    hide StaticEdges, StepSet;
  }

  lemma FailedStepIsCandidate(run: Run, t: Tree, candidates: seq<Step>)
    ensures var failed := FailedStepFromMarkers(run, t, candidates);
            failed.Ok? && failed.value.Some? ==> failed.value.value in candidates
  {
    hide SaysFailed;
    var failed := FailedAmong(run, t, candidates);
    if failed != [] {
      assert failed[0] in failed;
    }
  }

  /** Every dependency the state resolves has already been looked at. */
  lemma LookupsNeverMiss(run: Run, t: Tree, order: seq<Step>, i: nat)
    requires forall s :: s in order <==> s in ModeSteps(run.mode)
    requires Sequenced(StaticEdges(run.mode), StepSet(run.mode), order)
    requires i < |order| && Dependencies(run, t, order[i]).Some?
    ensures forall d :: d in Dependencies(run, t, order[i]).value ==> d in order[..i]
  {
    hide ModeSteps, StaticEdges, StepSet, FailedAmong, ResolvedDependencies, Candidates, Sequenced;
    var domain := FailedStepFromMarkers(run, t, DomainFailureSteps());
    var candidate := FailedStepFromMarkers(run, t, Candidates(run.mode));
    var failedDomain := if domain.Ok? then domain.value else None;
    var failedCandidate := if candidate.Ok? then candidate.value else None;
    FailedStepIsCandidate(run, t, DomainFailureSteps());
    FailedStepIsCandidate(run, t, Candidates(run.mode));
    forall d | d in Dependencies(run, t, order[i]).value ensures d in order[..i] {
      ResolvedDependenciesComeEarlier(run.mode, order, i, failedDomain, failedCandidate, d);
    }
  }

  /** A step with a dependency that is not valid, and none that raises, is invalid without being searched. */
  lemma RejectedWithoutSearch(run: Run, t: Tree, step: Step)
    requires Dependencies(run, t, step).Some?
    requires exists d :: d in Dependencies(run, t, step).value && !Verifies(run, t, d)
    requires forall d :: d in Dependencies(run, t, step).value ==> !Verify(run, t, d).Raised?
    ensures Verify(run, t, step).Invalid?
  {
    hide Dependencies, CheckMarker, ModeSteps;
    JudgeAllValid(ChecksOf(run, t), step, Dependencies(run, t, step).value);
  }
}
