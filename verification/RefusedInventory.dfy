/** A state whose inventory the recorder accepts and the public validator refuses. */
module RefusedInventory {
  import opened Results
  import opened Gates
  import opened StateTree
  import opened Markers
  import opened MerkleChain
  import opened Publication
  import opened RepositoryTables

  const HERE: Path := ["sbom"]
  const NAMED_FILE: Path := ["sbom", "a\\b"]
  const LOG_FILE: Path := ["logs", "sboms.log"]

  function RefusedTree(): Tree {
    map[HERE := Directory, NAMED_FILE := File([]), ["logs"] := Directory, LOG_FILE := File([])]
  }

  lemma Entries()
    ensures var t := RefusedTree();
            && ReadFile(t, NAMED_FILE) == Some([]) && ReadFile(t, LOG_FILE) == Some([])
            && HERE in t && t[HERE].Directory? && ["logs"] in t && t[["logs"]].Directory?
    ensures NAMED_FILE != LOG_FILE && Rooted(RefusedTree())
    ensures forall q :: q in RefusedTree() && HERE < q <==> q == NAMED_FILE
  {
    assert NAMED_FILE[0][0] == 's' && LOG_FILE[0][0] == 'l' && HERE[0][0] == 's' && ["logs"][0][0] == 'l';
    var t := RefusedTree();
    forall p, k | p in t && 0 < k < |p| ensures p[..k] in t && t[p[..k]].Directory? {
      assert |p| == 2 && p[..k] == [p[0]];
    }
  }

  lemma Tabled()
    ensures Repository().owned(Sboms) == [Owned(HERE, true)] && Repository().logs(Sboms) == [LOG_FILE]
  {
    assert "sboms" + ".log" == "sboms.log";
  }

  lemma LogCollected(run: Run)
    ensures Collect(run, RefusedTree(), Owned(LOG_FILE, false)) == Some(map[LOG_FILE := Identify(run, [])])
  {
    hide RefusedTree;
    Entries();
    assert forall k :: 0 < k < |LOG_FILE| ==> LOG_FILE[..k] == ["logs"];
  }

  /** Whatever else the run is given: a file of an owned directory whose name holds a backslash is recorded by the
      engine and refused by the validator. */
  lemma BackslashRefused(run: Run) returns (t: Tree)
    requires run.tables == Repository()
    ensures Rooted(t) && Inventory(run, t, Sboms).Some? && NAMED_FILE in Inventory(run, t, Sboms).value
    ensures RetainedInventory(run, t, Sboms).None?
  {
    hide RefusedTree, Collect, CollectAll, Repository, RetainedInventory, PlainInventory;
    t := RefusedTree();
    var first, second := Owned(HERE, true), Owned(LOG_FILE, false);
    var x, y := map[NAMED_FILE := Identify(run, [])], map[LOG_FILE := Identify(run, [])];
    Tabled();
    Entries();
    assert PresentLogs(t, [LOG_FILE]) == [second] by {
      assert [LOG_FILE][1..] == [];
      assert PresentLogs(t, []) == [];
    }
    LogCollected(run);
    OneFileBelow(run, t, HERE, NAMED_FILE);
    CollectTwo(run, t, first, second, x, y);
    assert [first] + [second] == [first, second];
    InventoryAgrees(run, t, Sboms);
    NotPlain(run, t);
  }

  lemma NotPlain(run: Run, t: Tree)
    requires run.tables == Repository() && ReadFile(t, NAMED_FILE).Some?
    ensures !PlainInventory(run, t, Sboms)
  {
    hide Repository;
    Tabled();
    var item := run.tables.owned(Sboms)[0];
    assert NAMED_FILE[1][1] == '\\';
    assert Covers(item, NAMED_FILE);
    assert Recorded(run.tables, Sboms, NAMED_FILE);
  }
}
