/** The ownership table check made before the engine touches any state. */
module Authority {
  import opened Gates
  import opened GateProperties
  import opened StateTree
  import opened Markers

  predicate ReservedRoot(component: string) {
    component == "done" || component == "stale" || component == "diagnostics"
  }

  /** A relative path with ordinary components, outside the engine's own directories. */
  predicate SafeClaim(p: Path) {
    && p != []
    && (forall i :: 0 <= i < |p| ==> p[i] != "" && p[i] != "." && p[i] != "..")
    && !ReservedRoot(p[0])
  }

  /** Said of the components: none of them is empty or a dot path, and the first is none of the engine's own. */
  lemma SafeClaimMeans(p: Path)
    ensures SafeClaim(p) <==>
              && 0 < |p| && "" !in p && "." !in p && ".." !in p
              && p[0] !in ["done", "stale", "diagnostics"]
  {
  }

  /** One entry of the ownership table: a step and the position of one of its claims. */
  ghost predicate IsClaim(tables: Tables, step: Step, i: int) {
    0 <= i < |Claims(tables, step)|
  }

  /** What the import-time check establishes: every claim is safe, no two claims overlap,
      and step names, the keys of the tables, are distinct. */
  ghost predicate Coherent(tables: Tables) {
    && (forall s, i :: IsClaim(tables, s, i) ==> SafeClaim(Claims(tables, s)[i]))
    && (forall s, i, r, j :: IsClaim(tables, s, i) && IsClaim(tables, r, j) && (s, i) != (r, j) ==>
          !Overlap(Claims(tables, s)[i], Claims(tables, r)[j]))
  }

  ghost predicate DistinctNames(tables: Tables) {
    forall s, r :: tables.name(s) == tables.name(r) ==> s == r
  }

  datatype Owner = Owner(path: Path, step: Step)

  /** The first owner whose path overlaps a claim, or the number of owners. */
  method FirstOverlap(owners: seq<Owner>, claim: Path) returns (clash: nat)
    ensures clash <= |owners|
    ensures clash < |owners| ==> Overlap(claim, owners[clash].path)
    ensures forall k :: 0 <= k < clash ==> !Overlap(claim, owners[k].path)
  {
    clash := 0;
    while clash < |owners| && !Overlap(claim, owners[clash].path)
      invariant clash <= |owners|
      invariant forall k :: 0 <= k < clash ==> !Overlap(claim, owners[k].path)
    {
      clash := clash + 1;
    }
  }

  /** Grow the list of owners step by step, in name order, and stop at the first unsafe or overlapping claim. */
  method ValidateOwnership(tables: Tables) returns (accepted: bool)
    ensures accepted <==> Coherent(tables)
  {
    hide StepNamed, NameRank, SafeClaim, Claims;
    var owners: seq<Owner> := [];
    ghost var origin: seq<(Step, int)> := [];
    var n := 0;
    while n < 33
      invariant 0 <= n <= 33
      invariant OwnersFrom(tables, owners, origin)
      invariant forall k :: 0 <= k < |origin| ==> NameRank(origin[k].0) < n
      invariant forall s, i :: IsClaim(tables, s, i) && NameRank(s) < n ==> (s, i) in origin
    {
      var step := StepNamed(n);
      NameOfPosition(n);
      var claims := Claims(tables, step);
      var c := 0;
      while c < |claims|
        invariant 0 <= c <= |claims|
        invariant OwnersFrom(tables, owners, origin)
        invariant forall k :: 0 <= k < |origin| ==>
                    NameRank(origin[k].0) < n || (origin[k].0 == step && origin[k].1 < c)
        invariant forall s, i :: IsClaim(tables, s, i) && NameRank(s) < n ==> (s, i) in origin
        invariant forall i :: 0 <= i < c ==> (step, i) in origin
      {
        assert IsClaim(tables, step, c);
        if !SafeClaim(claims[c]) {
          return false;
        }
        var clash := FirstOverlap(owners, claims[c]);
        if clash < |owners| {
          assert IsClaim(tables, origin[clash].0, origin[clash].1);
          return false;
        }
        owners := owners + [Owner(claims[c], step)];
        origin := origin + [(step, c)];
        c := c + 1;
      }
      forall s, i | IsClaim(tables, s, i) && NameRank(s) < n + 1 ensures (s, i) in origin {
        if NameRank(s) == n { NamesAreDistinct(s, step); }
      }
      n := n + 1;
    }
    forall s, i | IsClaim(tables, s, i) ensures (s, i) in origin {
      NameRankBound(s);
    }
    return true;
  }

  lemma NameOfPosition(n: nat)
    requires n < 33
    ensures NameRank(StepNamed(n)) == n
  {
  }

  lemma NameRankBound(s: Step)
    ensures NameRank(s) < 33
  {
  }

  /** The owners collected so far are safe and pairwise apart, and each records where it came from. */
  ghost predicate OwnersFrom(tables: Tables, owners: seq<Owner>, origin: seq<(Step, int)>) {
    && |owners| == |origin|
    && (forall k :: 0 <= k < |owners| ==>
          && IsClaim(tables, origin[k].0, origin[k].1)
          && owners[k].path == Claims(tables, origin[k].0)[origin[k].1]
          && SafeClaim(owners[k].path))
    && (forall k, l :: 0 <= k < l < |owners| ==> origin[k] != origin[l] && !Overlap(owners[k].path, owners[l].path))
  }
}
