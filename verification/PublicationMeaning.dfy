/** What an accepted chain of markers says, told of the published files, the hash and the parsers alone. */
module PublicationMeaning {
  import opened Results
  import opened Gates
  import opened StateTree
  import opened Markers
  import opened MerkleChain
  import opened Authority
  import opened Json
  import opened Corpora
  import opened CorporaMeaning
  import opened MarkerCompleteness
  import opened Publication

  // ---------------------------------------------------------------- files

  /** A regular file below real directories, at a path without dots, backslashes and NUL characters. */
  ghost predicate Published(t: Tree, p: Path) {
    && p != [] && p in t && t[p].File?
    && (forall k :: 0 < k < |p| ==> p[..k] in t && t[p[..k]].Directory?)
    && forall i :: 0 <= i < |p| ==>
         p[i] != "" && p[i] != "." && p[i] != ".." && '\\' !in p[i] && '\0' !in p[i]
  }

  lemma PublishedMeans(t: Tree, p: Path)
    ensures Published(t, p) <==> RetainedFile(t, p).Some?
    ensures Published(t, p) ==> RetainedFile(t, p) == Some(t[p].content)
  {
  }

  /** An owned path is published: a file, or a directory that holds files, each of them published, and otherwise only
      directories. */
  ghost predicate Delivered(t: Tree, item: Owned) {
    if !item.directory then Published(t, item.path)
    else
      && item.path in t && t[item.path].Directory?
      && (forall p :: p in t && item.path < p ==> t[p].Directory? || Published(t, p))
      && (exists p :: p in t && item.path < p && t[p].File?)
  }

  /** Everything the step owns is published, and at least one of its logs; no log is there unpublished. */
  ghost predicate AllDelivered(run: Run, t: Tree, step: Step) {
    && (forall item :: item in run.tables.owned(step) ==> Delivered(t, item))
    && (exists p :: p in run.tables.logs(step) && p in t)
    && (forall p :: p in run.tables.logs(step) && p in t ==> Published(t, p))
  }

  /** The inventory lists exactly the published files at the recorded places, with their sizes and hashes. */
  ghost predicate ListsPublished(run: Run, t: Tree, step: Step, inventory: map<Path, FileIdentity>) {
    && (forall p :: p in inventory <==> Recorded(run.tables, step, p) && p in t && t[p].File?)
    && forall p :: p in inventory ==> inventory[p] == FileIdentity(|t[p].content|, run.hash(t[p].content))
  }

  lemma RetainedCollectMeans(run: Run, t: Tree, item: Owned)
    ensures RetainedCollect(run, t, item).Some? <==> Delivered(t, item)
    ensures RetainedCollect(run, t, item).Some? ==>
              forall p ::
                && (p in RetainedCollect(run, t, item).value <==> Covers(item, p) && p in t && t[p].File?)
                && (p in RetainedCollect(run, t, item).value ==>
                      RetainedCollect(run, t, item).value[p] == FileIdentity(|t[p].content|, run.hash(t[p].content)))
  {
    hide PlainPath, Published;
    forall p ensures Published(t, p) <==> RegularFile(t, p) { PublishedMeans(t, p); }
    PublishedIsFile(t);
    var files := map p | p in t && item.path < p && t[p].File? :: Identify(run, t[p].content);
    if p :| p in t && item.path < p && t[p].File? { assert p in files; }
    if files != map[] { var p :| p in files; }
  }

  lemma PublishedIsFile(t: Tree)
    ensures forall p :: Published(t, p) ==> p in t && t[p].File?
  {
  }

  lemma {:induction false} RetainedCollectAllMeans(run: Run, t: Tree, items: seq<Owned>)
    requires Apart(items)
    ensures RetainedCollectAll(run, t, items).Some? <==> forall item :: item in items ==> Delivered(t, item)
    ensures RetainedCollectAll(run, t, items).Some? ==>
              forall p ::
                && (p in RetainedCollectAll(run, t, items).value <==>
                      p in t && t[p].File? && exists item :: item in items && Covers(item, p))
                && (p in RetainedCollectAll(run, t, items).value ==>
                      RetainedCollectAll(run, t, items).value[p]
                      == FileIdentity(|t[p].content|, run.hash(t[p].content)))
  {
    hide RetainedCollect, Delivered, Overlap, Covers;
    if items != [] {
      var before, last := items[..|items| - 1], items[|items| - 1];
      assert items == before + [last];
      RetainedCollectAllMeans(run, t, before);
      RetainedCollectMeans(run, t, last);
      forall item, p | item in before && Covers(item, p) ensures !Covers(last, p) {
        if Covers(last, p) { CoversOverlap(item, last, p); }
      }
    }
  }

  /** The validator computes an inventory exactly of a step that is delivered, and it lists what is published. */
  lemma RetainedInventoryMeans(run: Run, t: Tree, step: Step)
    requires Coherent(run.tables)
    ensures RetainedInventory(run, t, step).Some? <==> AllDelivered(run, t, step)
    ensures RetainedInventory(run, t, step).Some? ==>
              ListsPublished(run, t, step, RetainedInventory(run, t, step).value)
  {
    hide Delivered, RetainedCollectAll, Published, Recorded, Covers, Coherent;
    var owned, logs := run.tables.owned(step), run.tables.logs(step);
    var present := PresentLogs(t, logs);
    PresentLogsMean(t, logs);
    OwnItemsApart(run, t, step);
    RetainedCollectAllMeans(run, t, owned + present);
    ItemsDelivered(run, t, step);
    forall p | p in t && t[p].File?
      ensures (exists item :: item in owned + present && Covers(item, p)) <==> Recorded(run.tables, step, p)
    {
      if item :| item in owned + present && Covers(item, p) { ItemIsRecorded(run.tables, t, step, item, p); }
      if Recorded(run.tables, step, p) { var item := RecordedItem(run.tables, t, step, p); }
    }
  }

  lemma ItemsDelivered(run: Run, t: Tree, step: Step)
    ensures var items := run.tables.owned(step) + PresentLogs(t, run.tables.logs(step));
            PresentLogs(t, run.tables.logs(step)) != [] ==>
              (AllDelivered(run, t, step) <==> forall item :: item in items ==> Delivered(t, item))
    ensures AllDelivered(run, t, step) ==> PresentLogs(t, run.tables.logs(step)) != []
  {
    hide Delivered, Published, PresentLogs;
    var owned, logs := run.tables.owned(step), run.tables.logs(step);
    var present := PresentLogs(t, logs);
    PresentLogsMean(t, logs);
    PresentDelivered(t, logs);
    assert forall item :: item in owned + present <==> item in owned || item in present;
  }

  lemma PresentDelivered(t: Tree, logs: seq<Path>)
    ensures (forall item :: item in PresentLogs(t, logs) ==> Delivered(t, item))
            <==> forall p :: p in logs && p in t ==> Published(t, p)
  {
    hide Published, PresentLogs;
    PresentLogsMean(t, logs);
    var present := PresentLogs(t, logs);
    if forall item :: item in present ==> Delivered(t, item) {
      forall p | p in logs && p in t ensures Published(t, p) {
        assert Owned(p, false) in present && Delivered(t, Owned(p, false));
      }
    }
  }

  // ---------------------------------------------------------------- lineage and corpora

  /** The published matrix-lock marker names this lineage: an absolute path, a digest for the source, and for the
      locked copy the hash of the published file. */
  ghost predicate PublishedLineage(run: Run, t: Tree, lineage: Lineage) {
    var path := ["done", run.tables.name(MatrixLock) + ".json"];
    && Published(t, ["full.yaml"]) && Published(t, path)
    && (exists marker :: run.decode(t[path].content) == Some(MarkerDocument(marker)) && marker.lineage == Some(lineage))
    && lineage.resolvedPath != "" && lineage.resolvedPath[0] == '/'
    && IsSha256(lineage.sourceSha256)
    && lineage.lockedSha256 == run.hash(t[["full.yaml"]].content)
  }

  lemma RetainedLineageMeans(run: Run, t: Tree, lineage: Lineage)
    ensures RetainedLineage(run, t) == Some(lineage) <==> PublishedLineage(run, t, lineage)
  {
    hide Published, RetainedFile, IsSha256;
    PublishedMeans(t, LOCKED_SPECIFICATION_FILE);
    PublishedMeans(t, MarkerPath(run.tables, MatrixLock));
    if RetainedLineage(run, t) == Some(lineage) {
      var marker := run.decode(RetainedFile(t, MarkerPath(run.tables, MatrixLock)).value).value.marker;
      assert marker.lineage == Some(lineage);
    }
  }

  /** The published index says these identities. */
  ghost predicate PublishedCorpora(t: Tree, parse: Bytes -> Option<Json>, str: Json -> string,
                                   identities: seq<CorpusIdentity>) {
    && Published(t, ["corpora.json"])
    && exists reference, corpora ::
         && IndexSays(parse(t[["corpora.json"]].content), {"core", "plugin", "mobilenet"}, reference, corpora)
         && EntriesSay(["core", "mobilenet", "plugin"], corpora, reference, str, identities)
  }

  lemma RetainedCorporaMeans(t: Tree, parse: Bytes -> Option<Json>, str: Json -> string,
                             identities: seq<CorpusIdentity>)
    requires ConvertsText(str)
    ensures RetainedCorpora(t, parse, str) == Some(identities) <==> PublishedCorpora(t, parse, str, identities)
  {
    hide Published, RetainedFile, IndexSays, EntriesSay, RetainedIdentities, ConvertsText;
    PublishedMeans(t, CORPORA_FILE);
    PublishedIsFile(t);
    if Published(t, CORPORA_FILE) { RetainedMeans(parse(t[CORPORA_FILE].content), str, identities); }
  }

  // ---------------------------------------------------------------- one marker

  /** What the marker of a published step may depend on: the failed domain step for public-failure, and otherwise what
      the table lists. */
  ghost predicate PublishedDependency(decision: Decision, step: Step, d: Step) {
    if step.PublicFailure? then decision.failureStep == Some(d) && IsDomain(d) else d in StepDependencies(step)
  }

  ghost predicate NamedAs(run: Run, t: Tree, d: Step, hash: string) {
    var path := ["done", run.tables.name(d) + ".json"];
    Published(t, path) && hash == run.hash(t[path].content)
  }

  /** The dependencies named are exactly these, each by the hash of its published marker. */
  ghost predicate NamesPublished(run: Run, t: Tree, decision: Decision, step: Step, named: map<Step, string>) {
    && (forall d :: d in named <==> PublishedDependency(decision, step, d))
    && forall d :: d in named ==> NamedAs(run, t, d, named[d])
  }

  /** The marker says of a published step what the files and the decision say. */
  ghost predicate DescribesPublished(run: Run, t: Tree, decision: Decision, step: Step, corpora: seq<CorpusIdentity>,
                                     lineage: Lineage, marker: Marker) {
    && marker.step == step && marker.source == decision.source && marker.gpu == decision.gpu
    && marker.mode == FullMode
    && step in decision.outcomes && marker.outcome == decision.outcomes[step]
    && ListsPublished(run, t, step, marker.inventory)
    && NamesPublished(run, t, decision, step, marker.dependencies)
    && marker.matrixLock == (if BoundTo(decision, step, MatrixLock) then decision.matrixLock else None)
    && marker.lineage == (if BoundTo(decision, step, MatrixLock) then Some(lineage) else None)
    && marker.corpora == (if BoundTo(decision, step, CorpusMaterialization) then corpora else [])
  }

  /** The step is delivered, its dependencies can be told, and its published marker describes it. */
  ghost predicate StepAccepted(run: Run, t: Tree, decision: Decision, corpora: seq<CorpusIdentity>, lineage: Lineage,
                               step: Step) {
    var path := ["done", run.tables.name(step) + ".json"];
    && Published(t, path) && AllDelivered(run, t, step)
    && (step.PublicFailure? ==> decision.failureStep.Some? && IsDomain(decision.failureStep.value))
    && exists marker :: run.decode(t[path].content) == Some(MarkerDocument(marker))
                        && DescribesPublished(run, t, decision, step, corpora, lineage, marker)
  }

  /** One published marker is accepted exactly when it says what the files say. */
  lemma MarkerAcceptedMeans(run: Run, t: Tree, decision: Decision, corpora: seq<CorpusIdentity>, lineage: Lineage,
                            step: Step)
    requires Coherent(run.tables)
    ensures MarkerAccepted(run, t, decision, corpora, lineage, step)
            <==> StepAccepted(run, t, decision, corpora, lineage, step)
  {
    hide Published, RetainedFile, AllDelivered, DescribesPublished, Rebuild, Coherent, IsDomain;
    var path := MarkerPath(run.tables, step);
    PublishedMeans(t, path);
    RetainedInventoryMeans(run, t, step);
    forall marker
      ensures Rebuild(run, t, decision, corpora, lineage, step) == Some(marker)
              <==> AllDelivered(run, t, step)
                   && (step.PublicFailure? ==> decision.failureStep.Some? && IsDomain(decision.failureStep.value))
                   && DescribesPublished(run, t, decision, step, corpora, lineage, marker)
    {
      RebuildMeans(run, t, decision, corpora, lineage, step, marker);
    }
  }

  lemma RebuildMeans(run: Run, t: Tree, decision: Decision, corpora: seq<CorpusIdentity>, lineage: Lineage, step: Step,
                     marker: Marker)
    requires Coherent(run.tables)
    ensures Rebuild(run, t, decision, corpora, lineage, step) == Some(marker)
            <==> AllDelivered(run, t, step)
                 && (step.PublicFailure? ==> decision.failureStep.Some? && IsDomain(decision.failureStep.value))
                 && DescribesPublished(run, t, decision, step, corpora, lineage, marker)
  {
    hide AllDelivered, ListsPublished, NamesPublished, RetainedInventory, RetainedHashes, BoundTo, Coherent, IsDomain,
         StepDependencies;
    RetainedInventoryMeans(run, t, step);
    OneInventory(run, t, step, marker.inventory);
    var deps := DirectStepDependencies(step, decision.failureStep);
    if deps.Some? { HashesName(run, t, decision, step, deps.value, marker.dependencies); }
  }

  lemma OneInventory(run: Run, t: Tree, step: Step, inventory: map<Path, FileIdentity>)
    requires Coherent(run.tables)
    ensures AllDelivered(run, t, step) ==>
              (ListsPublished(run, t, step, inventory) <==> RetainedInventory(run, t, step) == Some(inventory))
  {
    hide AllDelivered, RetainedInventory, Recorded, Coherent;
    RetainedInventoryMeans(run, t, step);
    if AllDelivered(run, t, step) && ListsPublished(run, t, step, inventory) {
      assert RetainedInventory(run, t, step).value == inventory;
    }
  }

  lemma HashesName(run: Run, t: Tree, decision: Decision, step: Step, deps: seq<Step>, named: map<Step, string>)
    requires DirectStepDependencies(step, decision.failureStep) == Some(deps)
    ensures NamesPublished(run, t, decision, step, named) <==> RetainedHashes(run, t, deps) == Some(named)
  {
    hide NamedAs, RetainedFile, PublishedDependency, MarkerPath, RetainedHashes, DirectStepDependencies;
    DependenciesPublished(decision, step, deps);
    forall d, hash
      ensures NamedAs(run, t, d, hash) <==>
                && RetainedFile(t, MarkerPath(run.tables, d)).Some?
                && hash == run.hash(RetainedFile(t, MarkerPath(run.tables, d)).value)
    {
      NamedByHash(run, t, d, hash);
    }
    HashesAre(run, t, deps, named);
  }

  lemma HashesAre(run: Run, t: Tree, deps: seq<Step>, named: map<Step, string>)
    ensures RetainedHashes(run, t, deps) == Some(named) <==>
              && (forall d :: d in named <==> d in deps)
              && forall d :: d in named ==>
                   && RetainedFile(t, MarkerPath(run.tables, d)).Some?
                   && named[d] == run.hash(RetainedFile(t, MarkerPath(run.tables, d)).value)
  {
    hide RetainedFile, MarkerPath;
    if (forall d :: d in named <==> d in deps)
       && forall d :: d in named ==>
            && RetainedFile(t, MarkerPath(run.tables, d)).Some?
            && named[d] == run.hash(RetainedFile(t, MarkerPath(run.tables, d)).value) {
      forall d | d in deps ensures RetainedFile(t, MarkerPath(run.tables, d)).Some? {
        assert d in named;
      }
      assert RetainedHashes(run, t, deps).Some?;
      assert RetainedHashes(run, t, deps).value == named;
    }
  }

  lemma NamedByHash(run: Run, t: Tree, d: Step, hash: string)
    ensures NamedAs(run, t, d, hash) <==>
              && RetainedFile(t, MarkerPath(run.tables, d)).Some?
              && hash == run.hash(RetainedFile(t, MarkerPath(run.tables, d)).value)
  {
    hide Published, RetainedFile;
    PublishedIsFile(t);
    PublishedMeans(t, MarkerPath(run.tables, d));
  }

  lemma DependenciesPublished(decision: Decision, step: Step, deps: seq<Step>)
    requires DirectStepDependencies(step, decision.failureStep) == Some(deps)
    ensures forall d :: d in deps <==> PublishedDependency(decision, step, d)
  {
    hide StepDependencies, IsDomain;
  }

  // ---------------------------------------------------------------- the chain

  /** A chain is accepted exactly when source and device are named, the published index says some identities, the
      published matrix-lock marker names a lineage that stands, and every step is delivered and has a published marker
      that says of it what the files, these identities and this lineage say. */
  lemma ChainAcceptedMeans(run: Run, t: Tree, decision: Decision, steps: seq<Step>, parse: Bytes -> Option<Json>,
                           str: Json -> string)
    requires Coherent(run.tables) && ConvertsText(str)
    ensures ChainAccepted(run, t, decision, steps, parse, str) <==>
              && decision.source != "" && decision.gpu != ""
              && exists corpora, lineage ::
                   && PublishedCorpora(t, parse, str, corpora) && PublishedLineage(run, t, lineage)
                   && forall s :: s in steps ==> StepAccepted(run, t, decision, corpora, lineage, s)
  {
    hide PublishedCorpora, PublishedLineage, StepAccepted, MarkerAccepted, RetainedCorpora, RetainedLineage, Coherent,
         ConvertsText;
    forall corpora
      ensures RetainedCorpora(t, parse, str) == Some(corpora) <==> PublishedCorpora(t, parse, str, corpora)
    {
      RetainedCorporaMeans(t, parse, str, corpora);
    }
    forall lineage ensures RetainedLineage(run, t) == Some(lineage) <==> PublishedLineage(run, t, lineage) {
      RetainedLineageMeans(run, t, lineage);
    }
    forall corpora, lineage, s
      ensures MarkerAccepted(run, t, decision, corpora, lineage, s)
              <==> StepAccepted(run, t, decision, corpora, lineage, s)
    {
      MarkerAcceptedMeans(run, t, decision, corpora, lineage, s);
    }
  }
}
