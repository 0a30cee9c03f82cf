/** Moving many subtrees aside, one after the other, into a fresh directory. */
module Relocation {
  import opened StateTree

  /** One rename: the subtree at `source` goes to `target`. */
  datatype Shift = Shift(source: Path, target: Path)

  /** Sources and targets never meet, and every target lies below `root`. */
  ghost predicate Orderly(shifts: seq<Shift>, root: Path) {
    && root != []
    && (forall i :: 0 <= i < |shifts| ==>
          shifts[i].source != [] && root < shifts[i].target && shifts[i].source[0] != root[0])
    && (forall i, j :: 0 <= i < j < |shifts| ==>
          !Overlap(shifts[i].source, shifts[j].source) && !Overlap(shifts[i].target, shifts[j].target))
  }

  ghost predicate Fresh(t: Tree, root: Path) {
    forall p :: p in t ==> !(root <= p)
  }

  /** Perform the renames whose source exists at that moment. */
  function MoveAll(t: Tree, shifts: seq<Shift>): Tree {
    if shifts == [] then t
    else
      var before := MoveAll(t, shifts[..|shifts| - 1]);
      var last := shifts[|shifts| - 1];
      if last.source in before then MoveTree(before, last.source, last.target) else before
  }

  /** The renames whose source exists at the start. */
  function Present(t: Tree, shifts: seq<Shift>): (present: seq<Shift>)
    ensures forall s :: s in present <==> s in shifts && s.source in t
  {
    if shifts == [] then []
    else
      var rest := Present(t, shifts[..|shifts| - 1]);
      if shifts[|shifts| - 1].source in t then rest + [shifts[|shifts| - 1]] else rest
  }

  lemma {:induction false} NothingPresent(t: Tree, shifts: seq<Shift>)
    requires forall i :: 0 <= i < |shifts| ==> shifts[i].source !in t
    ensures Present(t, shifts) == []
  {
    if shifts != [] {
      NothingPresent(t, shifts[..|shifts| - 1]);
    }
  }

  predicate Covered(shifts: seq<Shift>, p: Path) {
    exists i :: 0 <= i < |shifts| && shifts[i].source <= p
  }

  /** Whatever lies outside the sources and outside the top directory of the targets is left alone. */
  lemma {:induction false} KeptEntry(t: Tree, shifts: seq<Shift>, root: Path, p: Path)
    requires Orderly(shifts, root)
    requires p != [] && p[0] != root[0] && !Covered(shifts, p)
    ensures p in MoveAll(t, shifts) <==> p in t
    ensures p in t ==> MoveAll(t, shifts)[p] == t[p]
  {
    if shifts != [] {
      hide MoveTree;
      var shorter, last := shifts[..|shifts| - 1], shifts[|shifts| - 1];
      assert !(last.source <= p);
      assert forall i :: 0 <= i < |shorter| ==> shorter[i] == shifts[i];
      KeptEntry(t, shorter, root, p);
      assert last.target[0] == root[0];
      UnmovedEntry(MoveAll(t, shorter), last.source, last.target, p);
    }
  }

  /** A source exists when its turn comes exactly when it existed at the start. */
  lemma SourceStillThere(t: Tree, shifts: seq<Shift>, root: Path)
    requires Orderly(shifts, root) && shifts != []
    ensures var shorter, last := shifts[..|shifts| - 1], shifts[|shifts| - 1];
            last.source in MoveAll(t, shorter) <==> last.source in t
  {
    var shorter, last := shifts[..|shifts| - 1], shifts[|shifts| - 1];
    forall i | 0 <= i < |shorter| ensures !(shorter[i].source <= last.source) {
      assert !Overlap(shifts[i].source, last.source);
    }
    assert Orderly(shorter, root);
    KeptEntry(t, shorter, root, last.source);
  }

  lemma ShorterIsOrderly(shifts: seq<Shift>, root: Path, n: nat)
    requires Orderly(shifts, root) && n <= |shifts|
    ensures Orderly(shifts[..n], root)
  {
  }

  lemma AncestorPresent(t: Tree, ancestor: Path, p: Path)
    requires Rooted(t) && p in t && ancestor <= p && ancestor != []
    ensures ancestor in t
  {
    if ancestor != p {
      assert p[..|ancestor|] == ancestor;
    }
  }

  lemma PrefixTransitive(a: Path, b: Path, p: Path)
    ensures a <= b && b <= p ==> a <= p
  {
  }

  /** What lies below one source lies below no other. */
  lemma CoveredOnce(shifts: seq<Shift>, root: Path, p: Path)
    requires Orderly(shifts, root) && shifts != [] && shifts[|shifts| - 1].source <= p
    ensures !Covered(shifts[..|shifts| - 1], p)
  {
    var shorter, last := shifts[..|shifts| - 1], shifts[|shifts| - 1];
    forall k | 0 <= k < |shorter| ensures !(shorter[k].source <= p) {
      assert !Overlap(shifts[k].source, last.source);
      PrefixesOverlap(shifts[k].source, last.source, p);
    }
  }

  /** Nothing is left at or below a source. */
  lemma {:induction false} GoneEntry(t: Tree, shifts: seq<Shift>, root: Path, i: nat, p: Path)
    requires Orderly(shifts, root) && Rooted(t) && i < |shifts| && shifts[i].source <= p
    ensures p !in MoveAll(t, shifts)
  {
    hide MoveTree, Covered;
    var shorter, last := shifts[..|shifts| - 1], shifts[|shifts| - 1];
    var before := MoveAll(t, shorter);
    ShorterIsOrderly(shifts, root, |shifts| - 1);
    assert p[0] == shifts[i].source[0];
    if i < |shorter| {
      assert shorter[i] == shifts[i];
      GoneEntry(t, shorter, root, i, p);
    } else {
      CoveredOnce(shifts, root, p);
      KeptEntry(t, shorter, root, p);
      SourceStillThere(t, shifts, root);
      if last.source !in t && p in t { AncestorPresent(t, last.source, p); }
    }
    if last.source in before {
      UnmovedEntry(before, last.source, last.target, p);
    }
  }

  /** Every entry at or below an existing source lands, intact, at the matching place below its target. */
  lemma {:induction false} LandedEntry(t: Tree, shifts: seq<Shift>, root: Path, i: nat, p: Path)
    requires Orderly(shifts, root) && Rooted(t) && i < |shifts|
    requires p in t && shifts[i].source <= p
    ensures Relocate(shifts[i].source, shifts[i].target, p) in MoveAll(t, shifts)
    ensures MoveAll(t, shifts)[Relocate(shifts[i].source, shifts[i].target, p)] == t[p]
  {
    hide MoveTree;
    var shorter, last := shifts[..|shifts| - 1], shifts[|shifts| - 1];
    var before := MoveAll(t, shorter);
    ShorterIsOrderly(shifts, root, |shifts| - 1);
    SourceStillThere(t, shifts, root);
    if i == |shifts| - 1 {
      AncestorPresent(t, last.source, p);
      CoveredOnce(shifts, root, p);
      KeptEntry(t, shorter, root, p);
      MovedEntry(before, last.source, last.target, p);
    } else {
      assert shorter[i] == shifts[i];
      LandedEntry(t, shorter, root, i, p);
      var q := Relocate(shifts[i].source, shifts[i].target, p);
      assert q[0] == root[0];
      assert !Overlap(shifts[i].target, last.target);
      PrefixesOverlap(last.target, shifts[i].target, q);
      UnmovedEntry(before, last.source, last.target, q);
    }
  }

  lemma PrefixesOverlap(a: Path, b: Path, p: Path)
    requires b <= p
    ensures a <= p ==> Overlap(a, b)
  {
    if a <= p {
      if |a| <= |b| { assert a == b[..|a|]; } else { assert b == a[..|b|]; }
    }
  }

  /** What was already stored beside the fresh directory stays where it was. */
  lemma {:induction false} StoredEntry(t: Tree, shifts: seq<Shift>, root: Path, p: Path)
    requires Orderly(shifts, root) && p in t && p != [] && p[0] == root[0] && !(root <= p)
    ensures p in MoveAll(t, shifts) && MoveAll(t, shifts)[p] == t[p]
  {
    hide MoveTree;
    if shifts != [] {
      var shorter, last := shifts[..|shifts| - 1], shifts[|shifts| - 1];
      ShorterIsOrderly(shifts, root, |shifts| - 1);
      StoredEntry(t, shorter, root, p);
      UnmovedEntry(MoveAll(t, shorter), last.source, last.target, p);
    }
  }

  // ---------------------------------------------------------------- the tree stays a tree

  /** Nothing stands in the way of creating the parents of a path. */
  ghost predicate ParentsFree(t: Tree, p: Path) {
    forall k :: 0 < k < |p| && p[..k] in t ==> t[p[..k]].Directory?
  }

  lemma MoveKeepsRooted(t: Tree, source: Path, target: Path)
    requires Rooted(t) && source in t && !Overlap(source, target)
    requires ParentsFree(t, target)
    requires forall p :: p in t ==> !(target <= p)
    ensures Rooted(MoveTree(t, source, target))
  {
    var after := MoveTree(t, source, target);
    forall p, k | p in after && 0 < k < |p| ensures p[..k] in after && after[p[..k]].Directory? {
      if target <= p {
        LandedParent(t, source, target, p, k);
      } else {
        KeptParent(t, source, target, p, k);
      }
    }
  }

  lemma ParentsMade(t: Tree, source: Path, target: Path, k: int)
    requires !Overlap(source, target) && 0 < k < |target| && ParentsFree(t, target)
    ensures target[..k] in MoveTree(t, source, target) && MoveTree(t, source, target)[target[..k]].Directory?
  {
    var kept := map p | p in t && !(source <= p) :: t[p];
    assert !(target <= target[..k]);
    assert target[..k] in MakeParents(kept, target);
    assert target[..k] !in Landed(t, source, target);
  }

  lemma OriginOf(t: Tree, source: Path, target: Path, p: Path) returns (origin: Path)
    requires forall q :: q in t ==> !(target <= q)
    requires p in MoveTree(t, source, target) && target <= p
    ensures origin in t && source <= origin && p == Relocate(source, target, origin)
  {
    assert p in Landed(t, source, target);
    origin :| origin in t && source <= origin && p == Relocate(source, target, origin);
  }

  lemma LandedParent(t: Tree, source: Path, target: Path, p: Path, k: int)
    requires Rooted(t) && source in t && !Overlap(source, target) && ParentsFree(t, target)
    requires forall q :: q in t ==> !(target <= q)
    requires p in MoveTree(t, source, target) && target <= p && 0 < k < |p|
    ensures p[..k] in MoveTree(t, source, target) && MoveTree(t, source, target)[p[..k]].Directory?
  {
    hide MoveTree;
    assert !(source <= target);
    assert source != [];
    var origin := OriginOf(t, source, target, p);
    if k < |target| {
      assert p[..k] == target[..k];
      ParentsMade(t, source, target, k);
    } else {
      var j := k - |target| + |source|;
      var parent := origin[..j];
      assert source <= parent;
      assert Relocate(source, target, parent) == p[..k];
      assert parent in t && t[parent].Directory?;
      MovedEntry(t, source, target, parent);
    }
  }

  lemma KeptParent(t: Tree, source: Path, target: Path, p: Path, k: int)
    requires Rooted(t) && source in t && !Overlap(source, target) && ParentsFree(t, target)
    requires p in MoveTree(t, source, target) && !(target <= p) && 0 < k < |p|
    ensures p[..k] in MoveTree(t, source, target) && MoveTree(t, source, target)[p[..k]].Directory?
  {
    var kept := map q | q in t && !(source <= q) :: t[q];
    assert p !in Landed(t, source, target);
    if p in kept {
      var parent := p[..k];
      assert parent in t && t[parent].Directory?;
      PrefixTransitive(source, parent, p);
      PrefixTransitive(target, parent, p);
      assert parent in kept;
      assert parent !in Landed(t, source, target);
    } else {
      var n: nat :| 0 < n < |target| && p == target[..n];
      assert p[..k] == target[..k];
      ParentsMade(t, source, target, k);
    }
  }

  /** An entry after one move: landed below the target, a parent made for it, or kept. */
  lemma MoveCases(t: Tree, source: Path, target: Path, p: Path)
    requires p in MoveTree(t, source, target)
    ensures target <= p || (p < target && MoveTree(t, source, target)[p].Directory?)
            || (p in t && MoveTree(t, source, target)[p] == t[p])
  {
    if !(target <= p) {
      assert p !in Landed(t, source, target);
    }
  }

  /** Where nothing lands, the moves leave the old entry or a directory made on the way. */
  lemma {:induction false} ParentEntry(t: Tree, shifts: seq<Shift>, p: Path)
    requires p in MoveAll(t, shifts)
    requires forall i :: 0 <= i < |shifts| ==> !(shifts[i].target <= p)
    ensures (p in t && MoveAll(t, shifts)[p] == t[p]) || MoveAll(t, shifts)[p].Directory?
  {
    if shifts != [] {
      hide MoveTree;
      var shorter, last := shifts[..|shifts| - 1], shifts[|shifts| - 1];
      if last.source in MoveAll(t, shorter) {
        MoveCases(MoveAll(t, shorter), last.source, last.target, p);
      }
      if p in MoveAll(t, shorter) { ParentEntry(t, shorter, p); }
    }
  }

  /** A target that meets no earlier target is still unused. */
  lemma {:induction false} TargetUnused(t: Tree, shifts: seq<Shift>, root: Path, target: Path, p: Path)
    requires Fresh(t, root) && root <= target
    requires forall i :: 0 <= i < |shifts| ==> !Overlap(shifts[i].target, target)
    requires p in MoveAll(t, shifts)
    ensures !(target <= p)
  {
    hide MoveTree;
    if shifts == [] {
      PrefixTransitive(root, target, p);
    } else {
      var shorter, last := shifts[..|shifts| - 1], shifts[|shifts| - 1];
      assert !Overlap(last.target, target);
      if p in MoveAll(t, shorter) {
        TargetUnused(t, shorter, root, target, p);
      } else {
        MoveCases(MoveAll(t, shorter), last.source, last.target, p);
        if last.target <= p { PrefixesOverlap(target, last.target, p); }
      }
    }
  }

  /** The moves keep the tree a tree. */
  lemma {:induction false} MoveAllKeepsRooted(t: Tree, shifts: seq<Shift>, root: Path)
    requires Rooted(t) && Orderly(shifts, root) && Fresh(t, root)
    requires ParentsFree(t, root)
    ensures Rooted(MoveAll(t, shifts))
  {
    if shifts != [] {
      hide MoveTree;
      var shorter, last := shifts[..|shifts| - 1], shifts[|shifts| - 1];
      var before := MoveAll(t, shorter);
      ShorterIsOrderly(shifts, root, |shifts| - 1);
      MoveAllKeepsRooted(t, shorter, root);
      if last.source in before {
        forall i | 0 <= i < |shorter| ensures !Overlap(shorter[i].target, last.target) {
          assert shorter[i] == shifts[i];
        }
        forall p | p in before ensures !(last.target <= p) {
          TargetUnused(t, shorter, root, last.target, p);
        }
        TargetParentsFree(t, shorter, root, last.target);
        assert last.target[0] == root[0];
        MoveKeepsRooted(before, last.source, last.target);
      }
    }
  }

  lemma TargetParentsFree(t: Tree, shifts: seq<Shift>, root: Path, target: Path)
    requires Fresh(t, root) && ParentsFree(t, root) && root < target
    requires forall i :: 0 <= i < |shifts| ==> !Overlap(shifts[i].target, target)
    ensures ParentsFree(MoveAll(t, shifts), target)
  {
    forall k | 0 < k < |target| && target[..k] in MoveAll(t, shifts)
      ensures MoveAll(t, shifts)[target[..k]].Directory?
    {
      var parent := target[..k];
      forall i | 0 <= i < |shifts| ensures !(shifts[i].target <= parent) {
        assert !Overlap(shifts[i].target, target);
        PrefixTransitive(shifts[i].target, parent, target);
      }
      ParentEntry(t, shifts, parent);
      if k < |root| {
        assert parent == root[..k];
      } else {
        assert root <= parent;
      }
    }
  }
}
