/** The loops that fill an inventory, as the recorder and the validator run them, proved against what they compute. */
module InventoryWalk {
  import opened Results
  import opened Gates
  import opened StateTree
  import opened Markers
  import opened Json
  import opened Corpora
  import opened Publication

  /** A listing of a state, in whatever order a walk visits it. */
  ghost predicate Lists(t: Tree, paths: seq<Path>) {
    (forall p :: p in paths <==> p in t) && forall i, j :: 0 <= i < j < |paths| ==> paths[i] != paths[j]
  }

  /** Entries grown by the files of one required path; a file may appear only once. */
  ghost function Grown(entries: map<Path, FileIdentity>,
                       more: Option<map<Path, FileIdentity>>): Option<map<Path, FileIdentity>> {
    if more.None? || !(entries.Keys !! more.value.Keys) then None else Some(entries + more.value)
  }

  /** The regular files below a directory among the paths walked so far. */
  ghost function FilesBelow(run: Run, t: Tree, directory: Path, walked: seq<Path>): map<Path, FileIdentity> {
    map p | p in t && p in walked && directory < p && t[p].File? :: Identify(run, t[p].content)
  }

  /** Walk the paths below one directory. `safe` is the extra demand on each file. */
  method WalkDirectory(run: Run, t: Tree, directory: Path, paths: seq<Path>, entries: map<Path, FileIdentity>,
                       safe: Path -> bool)
    returns (grown: Option<map<Path, FileIdentity>>)
    requires Lists(t, paths)
    ensures grown.Some? <==>
              && (forall p :: p in t && directory < p ==> t[p].Directory? || (t[p].File? && safe(p)))
              && FilesBelow(run, t, directory, paths) != map[]
              && entries.Keys !! FilesBelow(run, t, directory, paths).Keys
    ensures grown.Some? ==> grown.value == entries + FilesBelow(run, t, directory, paths)
  {
    hide FilesBelow;
    var result := entries;
    var found := 0;
    NothingWalked(run, t, directory);
    for i := 0 to |paths|
      invariant forall p :: p in paths[..i] && directory < p ==> t[p].Directory? || (t[p].File? && safe(p))
      invariant entries.Keys !! FilesBelow(run, t, directory, paths[..i]).Keys
      invariant result == entries + FilesBelow(run, t, directory, paths[..i])
      invariant found == 0 <==> FilesBelow(run, t, directory, paths[..i]) == map[]
    {
      var p := paths[i];
      assert p in paths;
      assert paths[..i + 1] == paths[..i] + [p];
      if directory < p && !t[p].Directory? {
        if !t[p].File? || !safe(p) {
          return None;
        }
        NotWalkedBefore(t, paths, i);
        BelowMeans(run, t, directory, paths[..i], p);
        if p in result {
          BelowMeans(run, t, directory, paths, p);
          return None;
        }
        OneMoreFile(run, t, directory, paths[..i], p);
        result := result[p := Identify(run, t[p].content)];
        found := found + 1;
      } else {
        NotAFile(run, t, directory, paths[..i], p);
      }
    }
    assert paths[..|paths|] == paths;
    return if found == 0 then None else Some(result);
  }

  lemma NothingWalked(run: Run, t: Tree, directory: Path)
    ensures FilesBelow(run, t, directory, []) == map[]
  {
  }

  lemma BelowMeans(run: Run, t: Tree, directory: Path, walked: seq<Path>, p: Path)
    ensures p in FilesBelow(run, t, directory, walked) <==> p in t && p in walked && directory < p && t[p].File?
  {
  }

  lemma NotAFile(run: Run, t: Tree, directory: Path, walked: seq<Path>, p: Path)
    requires p in t && !(directory < p && t[p].File?)
    ensures FilesBelow(run, t, directory, walked + [p]) == FilesBelow(run, t, directory, walked)
  {
  }

  lemma NotWalkedBefore(t: Tree, paths: seq<Path>, i: nat)
    requires Lists(t, paths) && i < |paths|
    ensures paths[i] !in paths[..i]
  {
  }

  lemma OneMoreFile(run: Run, t: Tree, directory: Path, walked: seq<Path>, p: Path)
    requires p in t && directory < p && t[p].File? && p !in walked
    ensures FilesBelow(run, t, directory, walked + [p])
            == FilesBelow(run, t, directory, walked)[p := Identify(run, t[p].content)]
    ensures FilesBelow(run, t, directory, walked + [p]) != map[]
  {
    assert p in FilesBelow(run, t, directory, walked + [p]);
  }

  // ---------------------------------------------------------------- the recorder

  method CollectInto(run: Run, t: Tree, item: Owned, paths: seq<Path>, entries: map<Path, FileIdentity>)
    returns (grown: Option<map<Path, FileIdentity>>)
    requires Lists(t, paths)
    ensures grown == Grown(entries, Collect(run, t, item))
  {
    if (exists k :: 0 < k < |item.path| && item.path[..k] in t && t[item.path[..k]].Symlink?) || item.path !in t {
      return None;
    }
    if item.directory {
      if !t[item.path].Directory? {
        return None;
      }
      grown := WalkDirectory(run, t, item.path, paths, entries, p => true);
      assert FilesBelow(run, t, item.path, paths)
             == map p | p in t && item.path < p && t[p].File? :: Identify(run, t[p].content);
      return;
    }
    if !t[item.path].File? || item.path in entries {
      return None;
    }
    grown := Some(entries[item.path := Identify(run, t[item.path].content)]);
    assert grown.value == entries + map[item.path := Identify(run, t[item.path].content)];
  }

  /** The recorder's inventory of a step: owned paths first, then the logs that are present. */
  method InventoryOwned(run: Run, t: Tree, step: Step, paths: seq<Path>)
    returns (inventory: Option<map<Path, FileIdentity>>)
    requires Lists(t, paths)
    ensures inventory == Inventory(run, t, step)
  {
    hide Collect, Grown;
    var logs := PresentLogs(t, run.tables.logs(step));
    if logs == [] {
      return None;
    }
    var items := run.tables.owned(step) + logs;
    var entries: map<Path, FileIdentity> := map[];
    NothingCollected(run, t, items);
    for i := 0 to |items|
      invariant CollectAll(run, t, items[..i]) == Some(entries)
    {
      var grown := CollectInto(run, t, items[i], paths, entries);
      CollectedOneMore(run, t, items, i, entries);
      if grown.None? {
        LaterCollectFails(run, t, items, i + 1);
        return None;
      }
      entries := grown.value;
    }
    assert items[..|items|] == items;
    return Some(entries);
  }

  lemma NothingCollected(run: Run, t: Tree, items: seq<Owned>)
    ensures CollectAll(run, t, items[..0]) == Some(map[]) && RetainedCollectAll(run, t, items[..0]) == Some(map[])
  {
  }

  lemma CollectedOneMore(run: Run, t: Tree, items: seq<Owned>, i: nat, entries: map<Path, FileIdentity>)
    requires i < |items| && CollectAll(run, t, items[..i]) == Some(entries)
    ensures CollectAll(run, t, items[..i + 1]) == Grown(entries, Collect(run, t, items[i]))
  {
    hide Collect;
    assert items[..i + 1][..i] == items[..i];
  }

  lemma {:induction false} LaterCollectFails(run: Run, t: Tree, items: seq<Owned>, i: nat)
    requires i <= |items| && CollectAll(run, t, items[..i]).None?
    ensures CollectAll(run, t, items).None?
    decreases |items| - i
  {
    hide Collect;
    if i < |items| {
      assert items[..i + 1][..i] == items[..i];
      LaterCollectFails(run, t, items, i + 1);
    } else {
      assert items[..i] == items;
    }
  }

  // ---------------------------------------------------------------- the validator

  method RetainedInto(run: Run, t: Tree, item: Owned, paths: seq<Path>, entries: map<Path, FileIdentity>)
    returns (grown: Option<map<Path, FileIdentity>>)
    requires Lists(t, paths)
    ensures grown == Grown(entries, RetainedCollect(run, t, item))
  {
    hide PlainPath;
    if item.directory {
      if item.path !in t || !t[item.path].Directory? {
        return None;
      }
      grown := WalkDirectory(run, t, item.path, paths, entries, p => RegularFile(t, p));
      assert FilesBelow(run, t, item.path, paths)
             == map p | p in t && item.path < p && t[p].File? :: Identify(run, t[p].content);
      return;
    }
    if !RegularFile(t, item.path) || item.path in entries {
      return None;
    }
    grown := Some(entries[item.path := Identify(run, t[item.path].content)]);
    assert grown.value == entries + map[item.path := Identify(run, t[item.path].content)];
  }

  /** The validator's inventory of a step, filled from the published files. */
  method RetainedStepInventory(run: Run, t: Tree, step: Step, paths: seq<Path>)
    returns (inventory: Option<map<Path, FileIdentity>>)
    requires Lists(t, paths)
    ensures inventory == RetainedInventory(run, t, step)
  {
    hide RetainedCollect, Grown;
    var logs := PresentLogs(t, run.tables.logs(step));
    if logs == [] {
      return None;
    }
    var items := run.tables.owned(step) + logs;
    var entries: map<Path, FileIdentity> := map[];
    NothingCollected(run, t, items);
    for i := 0 to |items|
      invariant RetainedCollectAll(run, t, items[..i]) == Some(entries)
    {
      var grown := RetainedInto(run, t, items[i], paths, entries);
      RetainedOneMore(run, t, items, i, entries);
      if grown.None? {
        LaterRetainedFails(run, t, items, i + 1);
        return None;
      }
      entries := grown.value;
    }
    assert items[..|items|] == items;
    return Some(entries);
  }

  lemma RetainedOneMore(run: Run, t: Tree, items: seq<Owned>, i: nat, entries: map<Path, FileIdentity>)
    requires i < |items| && RetainedCollectAll(run, t, items[..i]) == Some(entries)
    ensures RetainedCollectAll(run, t, items[..i + 1]) == Grown(entries, RetainedCollect(run, t, items[i]))
  {
    hide RetainedCollect;
    assert items[..i + 1][..i] == items[..i];
  }

  lemma {:induction false} LaterRetainedFails(run: Run, t: Tree, items: seq<Owned>, i: nat)
    requires i <= |items| && RetainedCollectAll(run, t, items[..i]).None?
    ensures RetainedCollectAll(run, t, items).None?
    decreases |items| - i
  {
    hide RetainedCollect;
    if i < |items| {
      assert items[..i + 1][..i] == items[..i];
      LaterRetainedFails(run, t, items, i + 1);
    } else {
      assert items[..i] == items;
    }
  }

  // ---------------------------------------------------------------- failed markers

  lemma FailedFrom(run: Run, t: Tree, candidates: seq<Step>, i: nat)
    requires i < |candidates|
    ensures FailedAmong(run, t, candidates[i..])
            == (if SaysFailed(run, t, candidates[i]) then [candidates[i]] else [])
               + FailedAmong(run, t, candidates[i + 1..])
  {
    hide SaysFailed;
    assert candidates[i..][1..] == candidates[i + 1..];
  }

  /** Scan the candidates for failed markers; unreadable ones are passed over. */
  method FindFailedStep(run: Run, t: Tree, candidates: seq<Step>) returns (failed: Result<Option<Step>, ()>)
    ensures failed == FailedStepFromMarkers(run, t, candidates)
  {
    hide SaysFailed, FailedAmong;
    var found: seq<Step> := [];
    ghost var rest := FailedAmong(run, t, candidates);
    assert candidates[0..] == candidates;
    for i := 0 to |candidates|
      invariant rest == FailedAmong(run, t, candidates[i..])
      invariant FailedAmong(run, t, candidates) == found + rest
    {
      FailedFrom(run, t, candidates, i);
      if SaysFailed(run, t, candidates[i]) {
        found := found + [candidates[i]];
      }
      rest := FailedAmong(run, t, candidates[i + 1..]);
    }
    NoneAmongNone(run, t, candidates[|candidates|..]);
    if |found| > 1 {
      return Err(());
    }
    return Ok(if found == [] then None else Some(found[0]));
  }

  lemma NoneAmongNone(run: Run, t: Tree, candidates: seq<Step>)
    requires candidates == []
    ensures FailedAmong(run, t, candidates) == []
  {
  }

  // ---------------------------------------------------------------- retained corpora

  lemma RetainedFrom(kinds: seq<string>, corpora: map<string, Json>, reference: Json, str: Json -> string, i: nat)
    requires i < |kinds|
    ensures var first := RetainedEntry(kinds[i], Get(corpora, kinds[i]), reference, str);
            var rest := RetainedEntries(kinds[i + 1..], corpora, reference, str);
            RetainedEntries(kinds[i..], corpora, reference, str)
            == if first.None? || rest.None? then None else Some([first.value] + rest.value)
  {
    hide RetainedEntry;
    assert kinds[i..][1..] == kinds[i + 1..];
  }

  /** Append the retained identity of each kind in sorted order; the first bad entry stops the walk. */
  method RetainedCorpusIdentities(kinds: seq<string>, corpora: map<string, Json>, reference: Json, str: Json -> string)
    returns (identities: Option<seq<CorpusIdentity>>)
    ensures identities == RetainedEntries(kinds, corpora, reference, str)
  {
    hide RetainedEntry, RetainedEntries;
    var done: seq<CorpusIdentity> := [];
    ghost var all := RetainedEntries(kinds, corpora, reference, str);
    ghost var rest := all;
    assert kinds[0..] == kinds;
    for i := 0 to |kinds|
      invariant rest == RetainedEntries(kinds[i..], corpora, reference, str)
      invariant rest.None? ==> all.None?
      invariant rest.Some? ==> all.Some? && all.value == done + rest.value
    {
      RetainedFrom(kinds, corpora, reference, str, i);
      var entry := RetainedEntry(kinds[i], Get(corpora, kinds[i]), reference, str);
      if entry.None? {
        return None;
      }
      done := done + [entry.value];
      rest := RetainedEntries(kinds[i + 1..], corpora, reference, str);
    }
    NothingRetained(kinds[|kinds|..], corpora, reference, str);
    assert done + [] == done;
    return Some(done);
  }

  lemma NothingRetained(kinds: seq<string>, corpora: map<string, Json>, reference: Json, str: Json -> string)
    requires kinds == []
    ensures RetainedEntries(kinds, corpora, reference, str) == Some([])
  {
  }
}
