/** Reconciliation: the invalid steps of a mode, with everything they claim, are moved aside. */
module Reconcile {
  import opened Graphs
  import opened Gates
  import opened StateTree
  import opened Markers
  import opened Authority
  import opened Relocation

  // ---------------------------------------------------------------- what is to be moved

  function Aside(tables: Tables, root: Path, step: Step, p: Path): Shift {
    Shift(p, root + [tables.name(step)] + p)
  }

  function AsideAll(tables: Tables, root: Path, step: Step, claims: seq<Path>): seq<Shift> {
    seq(|claims|, i requires 0 <= i < |claims| => Aside(tables, root, step, claims[i]))
  }

  /** The claims of a step, then its marker. */
  function StepShifts(tables: Tables, root: Path, step: Step): seq<Shift> {
    AsideAll(tables, root, step, Claims(tables, step)) + [Aside(tables, root, step, MarkerPath(tables, step))]
  }

  function Shifts(tables: Tables, root: Path, steps: seq<Step>): seq<Shift> {
    if steps == [] then []
    else Shifts(tables, root, steps[..|steps| - 1]) + StepShifts(tables, root, steps[|steps| - 1])
  }

  lemma NamesDecideMarkers(tables: Tables, s: Step, r: Step)
    requires DistinctNames(tables) && MarkerPath(tables, s) == MarkerPath(tables, r)
    ensures s == r
  {
    var a, b := tables.name(s), tables.name(r);
    assert (a + ".json")[..|a|] == a && (b + ".json")[..|b|] == b;
    assert |a + ".json"| == |b + ".json"|;
  }

  /** A shift of a step moves one of its claims or its marker to the step's own place in the fresh directory. */
  lemma ShiftOrigin(tables: Tables, root: Path, step: Step, k: int)
    requires 0 <= k < |StepShifts(tables, root, step)|
    ensures var shift := StepShifts(tables, root, step)[k];
            && shift.target == root + [tables.name(step)] + shift.source
            && |StepShifts(tables, root, step)| == |Claims(tables, step)| + 1
            && shift.source == PathAt(tables, step, k)
  {
  }

  /** Two different shifts never meet, whether of one step or of two. */
  lemma ShiftsApart(tables: Tables, root: Path, s: Step, k: int, r: Step, l: int)
    requires Coherent(tables) && DistinctNames(tables)
    requires 0 <= k < |StepShifts(tables, root, s)| && 0 <= l < |StepShifts(tables, root, r)|
    requires s != r || k != l
    ensures var a, b := StepShifts(tables, root, s)[k], StepShifts(tables, root, r)[l];
            !Overlap(a.source, b.source) && !Overlap(a.target, b.target)
  {
    hide StepShifts, Claims, MarkerPath, Coherent, DistinctNames, Overlap;
    ShiftOrigin(tables, root, s, k);
    ShiftOrigin(tables, root, r, l);
    SourcesApart(tables, s, k, r, l);
    TargetsFollowSources(root, tables.name(s), StepShifts(tables, root, s)[k].source,
                         tables.name(r), StepShifts(tables, root, r)[l].source);
  }

  /** The path of a step at a position: its claims first, then its marker. */
  function PathAt(tables: Tables, step: Step, k: int): Path
    requires 0 <= k <= |Claims(tables, step)|
  {
    if k < |Claims(tables, step)| then Claims(tables, step)[k] else MarkerPath(tables, step)
  }

  lemma SourcesApart(tables: Tables, s: Step, k: int, r: Step, l: int)
    requires Coherent(tables) && DistinctNames(tables)
    requires 0 <= k <= |Claims(tables, s)| && 0 <= l <= |Claims(tables, r)|
    requires s != r || k != l
    ensures !Overlap(PathAt(tables, s, k), PathAt(tables, r, l))
  {
    hide Claims, MarkerPath, SafeClaim;
    var claimsS, claimsR := Claims(tables, s), Claims(tables, r);
    if k < |claimsS| {
      assert IsClaim(tables, s, k);
      if l < |claimsR| {
        assert IsClaim(tables, r, l);
      } else {
        ClaimNotMarker(tables, claimsS[k], r);
      }
    } else if l < |claimsR| {
      assert IsClaim(tables, r, l);
      ClaimNotMarker(tables, claimsR[l], s);
    } else {
      MarkersApart(tables, s, r);
    }
  }

  lemma ClaimNotMarker(tables: Tables, claim: Path, step: Step)
    requires SafeClaim(claim)
    ensures !Overlap(claim, MarkerPath(tables, step))
  {
    assert MarkerPath(tables, step)[0] == "done";
  }

  lemma MarkersApart(tables: Tables, s: Step, r: Step)
    requires DistinctNames(tables) && s != r
    ensures !Overlap(MarkerPath(tables, s), MarkerPath(tables, r))
  {
    if MarkerPath(tables, s) == MarkerPath(tables, r) {
      NamesDecideMarkers(tables, s, r);
    }
  }

  lemma TargetsFollowSources(root: Path, n: string, a: Path, m: string, b: Path)
    requires !Overlap(a, b)
    ensures !Overlap(root + [n] + a, root + [m] + b)
  {
    var x, y := root + [n] + a, root + [m] + b;
    assert x[|root| + 1..] == a && y[|root| + 1..] == b;
    assert x <= y ==> a <= b;
    assert y <= x ==> b <= a;
  }

  lemma StepShiftsOrderly(tables: Tables, root: Path, step: Step)
    requires Coherent(tables) && DistinctNames(tables) && |root| == 2 && root[0] == "stale"
    ensures Orderly(StepShifts(tables, root, step), root)
  {
    hide StepShifts, Claims;
    var shifts := StepShifts(tables, root, step);
    forall k | 0 <= k < |shifts|
      ensures shifts[k].source != [] && root < shifts[k].target && shifts[k].source[0] != root[0]
    {
      ShiftOrigin(tables, root, step, k);
      if k < |Claims(tables, step)| {
        assert IsClaim(tables, step, k);
      }
    }
    forall k, l | 0 <= k < l < |shifts|
      ensures !Overlap(shifts[k].source, shifts[l].source) && !Overlap(shifts[k].target, shifts[l].target)
    {
      ShiftsApart(tables, root, step, k, step, l);
    }
  }

  /** Every shift belongs to one of the steps. */
  lemma {:induction false} ShiftBelongs(tables: Tables, root: Path, steps: seq<Step>, i: int) returns (n: int, k: int)
    requires 0 <= i < |Shifts(tables, root, steps)|
    ensures 0 <= n < |steps| && 0 <= k < |StepShifts(tables, root, steps[n])|
    ensures Shifts(tables, root, steps)[i] == StepShifts(tables, root, steps[n])[k]
  {
    hide StepShifts;
    var shorter := Shifts(tables, root, steps[..|steps| - 1]);
    if i < |shorter| {
      n, k := ShiftBelongs(tables, root, steps[..|steps| - 1], i);
    } else {
      n, k := |steps| - 1, i - |shorter|;
    }
  }

  /** Every shift of one of the steps is performed. */
  lemma {:induction false} ShiftIncluded(tables: Tables, root: Path, steps: seq<Step>, n: int, k: int) returns (i: int)
    requires 0 <= n < |steps| && 0 <= k < |StepShifts(tables, root, steps[n])|
    ensures 0 <= i < |Shifts(tables, root, steps)|
    ensures Shifts(tables, root, steps)[i] == StepShifts(tables, root, steps[n])[k]
  {
    hide StepShifts;
    if n < |steps| - 1 {
      i := ShiftIncluded(tables, root, steps[..|steps| - 1], n, k);
    } else {
      i := |Shifts(tables, root, steps[..|steps| - 1])| + k;
    }
  }

  lemma {:induction false} ShiftsOrderly(tables: Tables, root: Path, steps: seq<Step>)
    requires Coherent(tables) && DistinctNames(tables) && |root| == 2 && root[0] == "stale"
    requires NoDuplicates(steps)
    ensures Orderly(Shifts(tables, root, steps), root)
  {
    hide StepShifts, Coherent, DistinctNames, Overlap;
    if steps != [] {
      var last := |steps| - 1;
      var before, after := Shifts(tables, root, steps[..last]), StepShifts(tables, root, steps[last]);
      ShiftsOrderly(tables, root, steps[..last]);
      StepShiftsOrderly(tables, root, steps[last]);
      forall i, j | 0 <= i < |before| && 0 <= j < |after|
        ensures !Overlap(before[i].source, after[j].source) && !Overlap(before[i].target, after[j].target)
      {
        var n, k := ShiftBelongs(tables, root, steps[..last], i);
        assert steps[n] != steps[last];
        ShiftsApart(tables, root, steps[n], k, steps[last], j);
      }
      AppendOrderly(before, after, root);
    }
  }

  lemma AppendOrderly(before: seq<Shift>, after: seq<Shift>, root: Path)
    requires Orderly(before, root) && Orderly(after, root)
    requires forall i, j :: 0 <= i < |before| && 0 <= j < |after| ==>
               !Overlap(before[i].source, after[j].source) && !Overlap(before[i].target, after[j].target)
    ensures Orderly(before + after, root)
  {
    hide Overlap;
  }
}
