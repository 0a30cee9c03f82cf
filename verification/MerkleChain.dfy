/** A verified marker binds, through its hashes, every file of every step it depends on. */
module MerkleChain {
  import opened Results
  import opened Gates
  import opened StateTree
  import opened Markers

  /** No file of one state has the hash of a different file of the other. */
  ghost predicate CollisionFree(hash: Bytes -> string, t: Tree, u: Tree) {
    forall p, q | ReadFile(t, p).Some? && ReadFile(u, q).Some? ::
      hash(ReadFile(t, p).value) == hash(ReadFile(u, q).value) ==> ReadFile(t, p) == ReadFile(u, q)
  }

  // ---------------------------------------------------------------- what an inventory records

  /** The path a required item accounts for. */
  predicate Covers(item: Owned, p: Path) {
    if item.directory then item.path < p else item.path == p
  }

  /** A path whose content the inventory of a step records: an owned file, a log, or anything in an owned directory. */
  predicate Recorded(tables: Tables, step: Step, p: Path) {
    || p in tables.logs(step)
    || exists item :: item in tables.owned(step) && Covers(item, p)
  }

  lemma CollectMeans(run: Run, t: Tree, item: Owned, p: Path)
    requires Collect(run, t, item).Some?
    ensures p in Collect(run, t, item).value <==> Covers(item, p) && ReadFile(t, p).Some?
    ensures p in Collect(run, t, item).value ==> Collect(run, t, item).value[p] == Identify(run, ReadFile(t, p).value)
  {
  }

  lemma {:induction false} CollectAllMeans(run: Run, t: Tree, items: seq<Owned>, p: Path)
    requires CollectAll(run, t, items).Some?
    ensures p in CollectAll(run, t, items).value <==>
              ReadFile(t, p).Some? && exists item :: item in items && Covers(item, p)
    ensures p in CollectAll(run, t, items).value ==>
              CollectAll(run, t, items).value[p] == Identify(run, ReadFile(t, p).value)
  {
    hide Collect;
    if items != [] {
      var shorter, last := items[..|items| - 1], items[|items| - 1];
      assert items == shorter + [last];
      CollectAllMeans(run, t, shorter, p);
      CollectMeans(run, t, last, p);
    }
  }

  /** An inventory lists exactly the regular files found at the recorded paths, each with its size and hash. */
  lemma InventoryMeans(run: Run, t: Tree, step: Step, p: Path)
    requires Inventory(run, t, step).Some?
    ensures p in Inventory(run, t, step).value <==> ReadFile(t, p).Some? && Recorded(run.tables, step, p)
    ensures p in Inventory(run, t, step).value ==>
              Inventory(run, t, step).value[p] == Identify(run, ReadFile(t, p).value)
  {
    hide Collect, CollectAll;
    var owned, logs := run.tables.owned(step), PresentLogs(t, run.tables.logs(step));
    CollectAllMeans(run, t, owned + logs, p);
    if item :| item in owned && Covers(item, p) {
      assert item in owned + logs;
    }
    if p in run.tables.logs(step) && p in t {
      assert Owned(p, false) in owned + logs && Covers(Owned(p, false), p);
    }
  }

  // ---------------------------------------------------------------- small inventories

  /** A directory that holds one file. */
  lemma OneFileBelow(run: Run, t: Tree, here: Path, p: Path)
    requires forall q :: q in t && here < q <==> q == p
    requires ReadFile(t, p).Some? && here in t && t[here].Directory? && |here| == 1
    ensures Collect(run, t, Owned(here, true)) == Some(map[p := Identify(run, ReadFile(t, p).value)])
  {
    var files := map q | q in t && here < q && t[q].File? :: Identify(run, t[q].content);
    assert p in files;
    assert files == map[p := Identify(run, ReadFile(t, p).value)];
  }

  lemma CollectTwo(run: Run, t: Tree, a: Owned, b: Owned, x: map<Path, FileIdentity>, y: map<Path, FileIdentity>)
    requires Collect(run, t, a) == Some(x) && Collect(run, t, b) == Some(y) && x.Keys !! y.Keys
    ensures CollectAll(run, t, [a, b]) == Some(x + y)
  {
    hide Collect;
    assert CollectAll(run, t, []) == Some(map[]);
    assert [a][..0] == [] && [a, b][..1] == [a];
    assert map[] + x == x;
    assert CollectAll(run, t, [a]) == Some(x);
  }

  // ---------------------------------------------------------------- what a verified marker records

  /** The bytes and the parsed marker of a verified step, and what each field equals in the state. */
  lemma VerifiedMarker(run: Run, t: Tree, step: Step) returns (bytes: Bytes, marker: Marker)
    requires Verifies(run, t, step)
    ensures ReadFile(t, MarkerPath(run.tables, step)) == Some(bytes)
    ensures run.decode(bytes) == Some(MarkerDocument(marker))
    ensures Payload(run, t, step) == Ok(marker)
  {
    hide Payload, Dependencies;
    VerifiesMeans(run, t, step);
    bytes := ReadFile(t, MarkerPath(run.tables, step)).value;
    marker := Payload(run, t, step).value;
  }

  lemma PayloadFields(run: Run, t: Tree, step: Step, marker: Marker)
    requires Payload(run, t, step) == Ok(marker)
    ensures marker.step == step && marker.source == run.source && marker.gpu == run.gpu && marker.mode == run.mode
    ensures Inventory(run, t, step) == Some(marker.inventory)
    ensures AssessStep(run, t, step) == Assessed(marker.outcome)
    ensures Dependencies(run, t, step).Some?
    ensures DependencyHashes(run, t, Dependencies(run, t, step).value) == Some(marker.dependencies)
    ensures marker.matrixLock == (if BindsMatrix(step) then MatrixBinding(run, t) else None)
    ensures BindsCorpora(step) ==> CorpusBinding(run, t, step.CorpusMaterialization?) == Some(marker.corpora)
    ensures !BindsCorpora(step) ==> marker.corpora == []
    ensures marker.lineage == (if BindsMatrix(step) then SpecificationLineage(run, t) else None)
    ensures BindsMatrix(step) ==> marker.matrixLock.Some? && marker.lineage.Some?
  {
    hide Inventory, AssessStep, Dependencies, DependencyHashes, BindsMatrix, BindsCorpora, MatrixBinding,
         CorpusBinding, SpecificationLineage, ModeSteps;
  }

  lemma DependencyHashesMean(run: Run, t: Tree, deps: seq<Step>, hashes: map<Step, string>)
    requires DependencyHashes(run, t, deps) == Some(hashes)
    ensures forall d :: d in hashes <==> d in deps
    ensures forall d :: d in deps ==>
              && ReadFile(t, MarkerPath(run.tables, d)).Some?
              && hashes[d] == run.hash(ReadFile(t, MarkerPath(run.tables, d)).value)
  {
  }

  // ---------------------------------------------------------------- the chain

  /** Two states agree on everything the marker of one step accounts for, and on the marker itself. */
  ghost predicate SameEvidence(tables: Tables, t1: Tree, t2: Tree, step: Step) {
    && ReadFile(t1, MarkerPath(tables, step)) == ReadFile(t2, MarkerPath(tables, step))
    && forall p :: Recorded(tables, step, p) ==> ReadFile(t1, p) == ReadFile(t2, p)
  }

  lemma SameInventorySameFiles(r1: Run, t1: Tree, r2: Run, t2: Tree, step: Step)
    requires r1.tables == r2.tables && r1.hash == r2.hash && CollisionFree(r1.hash, t1, t2)
    requires Inventory(r1, t1, step).Some? && Inventory(r1, t1, step) == Inventory(r2, t2, step)
    ensures forall p :: Recorded(r1.tables, step, p) ==> ReadFile(t1, p) == ReadFile(t2, p)
  {
    hide Inventory, Recorded;
    forall p | Recorded(r1.tables, step, p) ensures ReadFile(t1, p) == ReadFile(t2, p) {
      InventoryMeans(r1, t1, step, p);
      InventoryMeans(r2, t2, step, p);
    }
  }

  /** Two states with the same marker of a step verified in both share the run's identity, the inventory and
      the resolved dependencies of the step, and hold the same markers for those dependencies. */
  lemma SameMarkerSameEdges(r1: Run, t1: Tree, r2: Run, t2: Tree, step: Step)
    requires r1.tables == r2.tables && r1.hash == r2.hash && r1.decode == r2.decode && CollisionFree(r1.hash, t1, t2)
    requires Verifies(r1, t1, step) && Verifies(r2, t2, step)
    requires ReadFile(t1, MarkerPath(r1.tables, step)) == ReadFile(t2, MarkerPath(r1.tables, step))
    ensures r1.source == r2.source && r1.gpu == r2.gpu && r1.mode == r2.mode
    ensures SameEvidence(r1.tables, t1, t2, step)
    ensures Dependencies(r1, t1, step).Some? && Dependencies(r2, t2, step).Some?
    ensures forall d :: d in Dependencies(r1, t1, step).value <==> d in Dependencies(r2, t2, step).value
    ensures forall d :: d in Dependencies(r1, t1, step).value ==>
              && Verifies(r1, t1, d) && Verifies(r2, t2, d)
              && ReadFile(t1, MarkerPath(r1.tables, d)) == ReadFile(t2, MarkerPath(r1.tables, d))
  {
    hide Payload, Inventory, AssessStep, Dependencies, DependencyHashes, BindsMatrix, BindsCorpora, MatrixBinding,
         CorpusBinding, SpecificationLineage, Verifies, Recorded, CheckMarker, ModeSteps;
    var bytes1, marker1 := VerifiedMarker(r1, t1, step);
    var bytes2, marker2 := VerifiedMarker(r2, t2, step);
    assert marker1 == marker2;
    PayloadFields(r1, t1, step, marker1);
    PayloadFields(r2, t2, step, marker2);
    SameInventorySameFiles(r1, t1, r2, t2, step);
    DependencyHashesMean(r1, t1, Dependencies(r1, t1, step).value, marker1.dependencies);
    DependencyHashesMean(r2, t2, Dependencies(r2, t2, step).value, marker1.dependencies);
    VerifiesMeans(r1, t1, step);
    VerifiesMeans(r2, t2, step);
  }

  lemma {:induction false} ConeSplits(run: Run, t: Tree, step: Step, c: Step) returns (d: Step)
    requires InCone(run, t, step, c) && c != step
    ensures Dependencies(run, t, step).Some?
    ensures d in Dependencies(run, t, step).value && InCone(run, t, d, c)
  {
    hide Dependencies, Rank;
    d :| d in Dependencies(run, t, step).value && InCone(run, t, d, c);
  }

  lemma {:induction false} ConeExtends(run: Run, t: Tree, step: Step, d: Step, c: Step)
    requires Dependencies(run, t, step).Some?
    requires d in Dependencies(run, t, step).value && InCone(run, t, d, c)
    ensures InCone(run, t, step, c)
  {
    hide Dependencies, Rank;
  }

  lemma {:induction false} InOwnCone(run: Run, t: Tree, step: Step)
    ensures InCone(run, t, step, step)
  {
    hide Dependencies, Rank;
  }

  /** A cone holds only lower-ranked steps besides its own. */
  lemma {:induction false} LowerInCone(run: Run, t: Tree, x: Step)
    ensures forall c :: InCone(run, t, x, c) ==> c == x || Rank(c) < Rank(x)
    decreases Rank(x)
  {
    hide Dependencies, InCone, Rank;
    forall c | InCone(run, t, x, c) && c != x ensures Rank(c) < Rank(x) {
      var d := ConeSplits(run, t, x, c);
      LowerInCone(run, t, d);
    }
  }

  /** The marker chain is a Merkle DAG: if a step verifies in two states that hold the same bytes as its marker,
      the states resolve the same cone of dependencies and agree on the marker, every owned file and every log
      of every step in that cone. */
  lemma {:induction false} MarkerBindsCone(r1: Run, t1: Tree, r2: Run, t2: Tree, step: Step)
    requires r1.tables == r2.tables && r1.hash == r2.hash && r1.decode == r2.decode && CollisionFree(r1.hash, t1, t2)
    requires Verifies(r1, t1, step) && Verifies(r2, t2, step)
    requires ReadFile(t1, MarkerPath(r1.tables, step)) == ReadFile(t2, MarkerPath(r1.tables, step))
    ensures r1.source == r2.source && r1.gpu == r2.gpu && r1.mode == r2.mode
    ensures forall c :: InCone(r1, t1, step, c) <==> InCone(r2, t2, step, c)
    ensures forall c :: InCone(r1, t1, step, c) ==> SameEvidence(r1.tables, t1, t2, c)
    decreases Rank(step)
  {
    hide Dependencies, Verifies, Recorded, CheckMarker, ModeSteps, SameEvidence, Rank, InCone;
    SameMarkerSameEdges(r1, t1, r2, t2, step);
    forall d | d in Dependencies(r1, t1, step).value
      ensures forall c :: (InCone(r1, t1, d, c) <==> InCone(r2, t2, d, c))
                          && (InCone(r1, t1, d, c) ==> SameEvidence(r1.tables, t1, t2, c))
    {
      MarkerBindsCone(r1, t1, r2, t2, d);
    }
    forall c
      ensures InCone(r1, t1, step, c) <==> InCone(r2, t2, step, c)
      ensures InCone(r1, t1, step, c) ==> SameEvidence(r1.tables, t1, t2, c)
    {
      if c == step {
        InOwnCone(r1, t1, step);
        InOwnCone(r2, t2, step);
      } else if InCone(r1, t1, step, c) {
        var d := ConeSplits(r1, t1, step, c);
        ConeExtends(r2, t2, step, d, c);
      } else if InCone(r2, t2, step, c) {
        var d := ConeSplits(r2, t2, step, c);
        ConeExtends(r1, t1, step, d, c);
      }
    }
  }
}
