/** The directory tree of one qualification run: paths relative to its root, and what is found at each. */
module StateTree {
  import opened Results

  type Path = seq<string>

  newtype Byte = b: int | 0 <= b < 256

  type Bytes = seq<Byte>

  datatype Entry = File(content: Bytes) | Directory | Symlink | Special

  type Tree = map<Path, Entry>

  /** One path lies at or below the other. */
  predicate Overlap(a: Path, b: Path) {
    a <= b || b <= a
  }

  /** Every parent of an entry is a directory of the tree; a symlink or file has nothing below it. */
  ghost predicate Rooted(t: Tree) {
    forall p, k :: p in t && 0 < k < |p| ==> p[..k] in t && t[p[..k]].Directory?
  }

  function ReadFile(t: Tree, p: Path): Option<Bytes> {
    if p in t && t[p].File? then Some(t[p].content) else None
  }

  // ---------------------------------------------------------------- moving a subtree

  /** Create the missing parents of a path. */
  function MakeParents(t: Tree, p: Path): Tree {
    (map k: nat | 0 < k < |p| :: p[..k] := Directory) + t
  }

  /** Where the entry at or below `source` lands. */
  function Relocate(source: Path, target: Path, p: Path): (q: Path)
    requires source <= p
    ensures target <= q && Restore(source, target, q) == p
  {
    assert (target + p[|source|..])[|target|..] == p[|source|..];
    assert source + p[|source|..] == p;
    target + p[|source|..]
  }

  /** Where a landed entry came from. */
  function Restore(source: Path, target: Path, q: Path): Path
    requires target <= q
  {
    source + q[|target|..]
  }

  function Landed(t: Tree, source: Path, target: Path): set<Path> {
    set p | p in t && source <= p :: Relocate(source, target, p)
  }

  /** Rename the subtree at `source` to `target`, creating the parents of `target`. */
  function MoveTree(t: Tree, source: Path, target: Path): Tree {
    var kept := map p | p in t && !(source <= p) :: t[p];
    var moved := map q | q in Landed(t, source, target) :: t[Restore(source, target, q)];
    MakeParents(kept, target) + moved
  }

  lemma MovedEntry(t: Tree, source: Path, target: Path, p: Path)
    requires p in t && source <= p
    ensures Relocate(source, target, p) in MoveTree(t, source, target)
    ensures MoveTree(t, source, target)[Relocate(source, target, p)] == t[p]
  {
    assert Relocate(source, target, p) in Landed(t, source, target);
  }

  /** Away from the source, the target and the target's new parents a move changes nothing;
      below the source nothing is left. */
  lemma UnmovedEntry(t: Tree, source: Path, target: Path, p: Path)
    requires !Overlap(source, target) && !(target <= p)
    requires p != [] && (p in t || !(p < target))
    ensures p in MoveTree(t, source, target) <==> p in t && !(source <= p)
    ensures p in t && !(source <= p) ==> MoveTree(t, source, target)[p] == t[p]
  {
    assert p !in Landed(t, source, target);
    if p < target {
      assert !(source <= p);
    }
    assert forall k: nat :: 0 < k < |target| ==> target[..k] < target;
  }
}
