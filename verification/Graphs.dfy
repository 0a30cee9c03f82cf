/** The graph algorithms of the qualification engine, over arbitrary finite graphs.
    An edge runs from a node to each of its direct dependencies. */
module Graphs {
  import opened Results

  // ---------------------------------------------------------------- paths

  /** A walk along one or more edges. */
  ghost predicate IsPath<T>(deps: T -> seq<T>, p: seq<T>) {
    && 2 <= |p|
    && forall i, j :: 0 <= i < j < |p| && j == i + 1 ==> p[j] in deps(p[i])
  }

  /** `target` is reached from `start` by one or more edges. */
  ghost predicate Reaches<T(!new)>(deps: T -> seq<T>, start: T, target: T) {
    exists p :: IsPath(deps, p) && p[0] == start && p[|p| - 1] == target
  }

  ghost predicate Cyclic<T(!new)>(deps: T -> seq<T>, nodes: set<T>) {
    exists n :: n in nodes && Reaches(deps, n, n)
  }

  ghost predicate Closed<T(!new)>(deps: T -> seq<T>, nodes: set<T>) {
    forall n, d :: n in nodes && d in deps(n) ==> d in nodes
  }

  lemma EdgeReaches<T(!new)>(deps: T -> seq<T>, start: T, d: T)
    requires d in deps(start)
    ensures Reaches(deps, start, d)
  {
    assert IsPath(deps, [start, d]);
  }

  lemma ReachesThenEdge<T(!new)>(deps: T -> seq<T>, start: T, middle: T, d: T)
    requires Reaches(deps, start, middle) && d in deps(middle)
    ensures Reaches(deps, start, d)
  {
    var p :| IsPath(deps, p) && p[0] == start && p[|p| - 1] == middle;
    assert IsPath(deps, p + [d]);
  }

  /** A set that holds the direct dependencies of `start` and is closed holds everything reached. */
  lemma {:induction false} ClosedSetHoldsReached<T(!new)>(deps: T -> seq<T>, start: T, region: set<T>, p: seq<T>)
    requires forall d :: d in deps(start) ==> d in region
    requires Closed(deps, region)
    requires IsPath(deps, p) && p[0] == start
    ensures p[|p| - 1] in region
    decreases |p|
  {
    if |p| == 2 {
      assert p[1] in deps(p[0]);
    } else {
      var shorter := p[..|p| - 1];
      assert IsPath(deps, shorter);
      ClosedSetHoldsReached(deps, start, region, shorter);
      assert p[|p| - 1] in deps(p[|p| - 2]);
    }
  }

  /** A descending chain of legs, each with an edge to the next or to the target, reaches the target. */
  lemma {:induction false} LegsReach<T(!new)>(deps: T -> seq<T>, legs: set<T>, rank: T -> nat, target: T, start: T)
    requires start in legs
    requires forall x {:trigger deps(x)} ::
               x in legs ==> exists d :: d in deps(x) && (d == target || (d in legs && rank(d) < rank(x)))
    ensures Reaches(deps, start, target)
    decreases rank(start)
  {
    var direct := deps(start);
    var d :| d in direct && (d == target || (d in legs && rank(d) < rank(start)));
    if d == target {
      EdgeReaches(deps, start, target);
    } else {
      LegsReach(deps, legs, rank, target, d);
      EdgeThenReaches(deps, start, d, target);
    }
  }

  lemma EdgeThenReaches<T(!new)>(deps: T -> seq<T>, start: T, d: T, target: T)
    requires d in deps(start) && Reaches(deps, d, target)
    ensures Reaches(deps, start, target)
  {
    var p :| IsPath(deps, p) && p[0] == d && p[|p| - 1] == target;
    assert IsPath(deps, [start] + p);
  }

  /** Nothing outside a closed region is reached from it. */
  lemma RegionMisses<T(!new)>(deps: T -> seq<T>, region: set<T>, start: T, target: T)
    requires forall d :: d in deps(start) ==> d in region
    requires Closed(deps, region) && target !in region
    ensures !Reaches(deps, start, target)
  {
    if Reaches(deps, start, target) {
      var p :| IsPath(deps, p) && p[0] == start && p[|p| - 1] == target;
      ClosedSetHoldsReached(deps, start, region, p);
    }
  }

  /** The worklist search: a stack of pending nodes and a set of expanded ones. */
  method DependsOn<T(==,!new)>(deps: T -> seq<T>, start: T, target: T, ghost nodes: set<T>) returns (found: bool)
    requires start in nodes && Closed(deps, nodes)
    ensures found <==> Reaches(deps, start, target)
  {
    var pending := deps(start);
    var visited: set<T> := {};
    forall d | d in pending ensures Reaches(deps, start, d) {
      EdgeReaches(deps, start, d);
    }
    while pending != []
      invariant forall d :: d in pending ==> Reaches(deps, start, d) && d in nodes
      invariant forall v :: v in visited ==> Reaches(deps, start, v) && v in nodes && v != target
      invariant forall d :: d in deps(start) ==> d in pending || d in visited
      invariant forall v, d :: v in visited && d in deps(v) ==> d in pending || d in visited
      decreases nodes - visited, |pending|
    {
      var current := pending[|pending| - 1];
      ghost var before := pending;
      pending := pending[..|pending| - 1];
      assert before == pending + [current];
      if current == target {
        return true;
      }
      if current !in visited {
        forall d | d in deps(current) ensures Reaches(deps, start, d) {
          ReachesThenEdge(deps, start, current, d);
        }
        visited := visited + {current};
        pending := pending + deps(current);
      }
    }
    if Reaches(deps, start, target) {
      var p :| IsPath(deps, p) && p[0] == start && p[|p| - 1] == target;
      ClosedSetHoldsReached(deps, start, visited, p);
    }
    return false;
  }

  /** Reachability only depends on the edges of the start and of the nodes reached. */
  lemma SameEdgesSameReach<T(!new)>(deps: T -> seq<T>, other: T -> seq<T>, nodes: set<T>, start: T, target: T)
    requires forall n :: n == start || n in nodes ==> deps(n) == other(n)
    requires forall n, d :: (n == start || n in nodes) && d in deps(n) ==> d in nodes
    ensures Reaches(deps, start, target) <==> Reaches(other, start, target)
  {
    if Reaches(deps, start, target) {
      var p :| IsPath(deps, p) && p[0] == start && p[|p| - 1] == target;
      PathStays(deps, nodes, p);
      assert IsPath(other, p);
    }
    if Reaches(other, start, target) {
      var p :| IsPath(other, p) && p[0] == start && p[|p| - 1] == target;
      forall n, d | (n == start || n in nodes) && d in other(n) ensures d in nodes {
        assert other(n) == deps(n);
      }
      PathStays(other, nodes, p);
      assert IsPath(deps, p);
    }
  }

  lemma {:induction false} PathStays<T(!new)>(deps: T -> seq<T>, nodes: set<T>, p: seq<T>)
    requires IsPath(deps, p)
    requires forall n, d :: (n == p[0] || n in nodes) && d in deps(n) ==> d in nodes
    ensures forall i :: 1 <= i < |p| ==> p[i] in nodes
    decreases |p|
  {
    if |p| == 2 {
      assert p[1] in deps(p[0]);
    } else {
      var shorter := p[..|p| - 1];
      assert IsPath(deps, shorter);
      PathStays(deps, nodes, shorter);
      assert p[|p| - 2] in nodes && p[|p| - 1] in deps(p[|p| - 2]);
      forall i | 1 <= i < |p| ensures p[i] in nodes {
        if i < |p| - 1 { assert p[i] == shorter[i]; }
      }
    }
  }

  /** Edges of a lookup that raises on some nodes. */
  function Total<T>(lookup: T -> Option<seq<T>>): T -> seq<T> {
    n => lookup(n).GetOr([])
  }

  /** The same search with a dependency lookup that may raise, as the publication validator does it. */
  method IsBoundTo<T(==,!new)>(lookup: T -> Option<seq<T>>, start: T, target: T, ghost nodes: set<T>)
    returns (bound: Result<bool, ()>)
    requires forall n, d :: (n == start || n in nodes) && d in Total(lookup)(n) ==> d in nodes
    requires forall n :: n in nodes ==> lookup(n).Some?
    ensures bound.Err? <==> lookup(start).None?
    ensures bound.Ok? ==> (bound.value <==> Reaches(Total(lookup), start, target))
  {
    if lookup(start).None? {
      return Err(());
    }
    var pending := lookup(start).value;
    var visited: set<T> := {};
    ghost var deps := Total(lookup);
    assert pending == deps(start);
    forall d | d in pending ensures Reaches(deps, start, d) {
      EdgeReaches(deps, start, d);
    }
    while pending != []
      invariant forall d :: d in pending ==> Reaches(deps, start, d) && d in nodes
      invariant forall v :: v in visited ==> v in nodes && v != target
      invariant forall d :: d in deps(start) ==> d in pending || d in visited
      invariant forall v, d :: v in visited && d in deps(v) ==> d in pending || d in visited
      decreases nodes - visited, |pending|
    {
      var current := pending[|pending| - 1];
      ghost var before := pending;
      pending := pending[..|pending| - 1];
      assert before == pending + [current];
      if current == target {
        return Ok(true);
      }
      if current in visited {
        continue;
      }
      visited := visited + {current};
      if lookup(current).None? {
        return Err(());
      }
      forall d | d in deps(current) ensures Reaches(deps, start, d) {
        ReachesThenEdge(deps, start, current, d);
      }
      pending := pending + lookup(current).value;
    }
    if Reaches(deps, start, target) {
      var p :| IsPath(deps, p) && p[0] == start && p[|p| - 1] == target;
      ClosedSetHoldsReached(deps, start, visited, p);
    }
    return Ok(false);
  }

  // ---------------------------------------------------------------- sorting by name

  ghost predicate Injective<T(!new)>(key: T -> nat, nodes: set<T>) {
    forall a, b :: a in nodes && b in nodes && key(a) == key(b) ==> a == b
  }

  lemma {:induction false} LeastExists<T(!new)>(key: T -> nat, nodes: set<T>)
    requires nodes != {}
    ensures exists m :: m in nodes && forall x :: x in nodes ==> key(m) <= key(x)
  {
    var n :| n in nodes;
    if nodes == {n} {
      assert forall x :: x in nodes ==> key(n) <= key(x);
    } else {
      LeastExists(key, nodes - {n});
      var m :| m in nodes - {n} && forall x :: x in nodes - {n} ==> key(m) <= key(x);
      var least := if key(n) < key(m) then n else m;
      assert forall x :: x in nodes ==> x == n || x in nodes - {n};
      assert least in nodes && forall x :: x in nodes ==> key(least) <= key(x);
    }
  }

  function Least<T(==,!new)>(key: T -> nat, nodes: set<T>): (least: T)
    requires nodes != {} && Injective(key, nodes)
    ensures least in nodes && forall x :: x in nodes && x != least ==> key(least) < key(x)
  {
    LeastExists(key, nodes);
    var m :| m in nodes && forall x :: x in nodes ==> key(m) <= key(x);
    m
  }

  ghost predicate Ascending<T>(key: T -> nat, s: seq<T>) {
    forall i, j :: 0 <= i < j < |s| ==> key(s[i]) < key(s[j])
  }

  /** The elements of a set in ascending order of their sort key. */
  function Sorted<T(==,!new)>(key: T -> nat, nodes: set<T>): (s: seq<T>)
    requires Injective(key, nodes)
    ensures Ascending(key, s)
    ensures forall x :: x in s <==> x in nodes
    ensures |s| == |nodes|
    decreases nodes
  {
    if nodes == {} then []
    else
      var least := Least(key, nodes);
      [least] + Sorted(key, nodes - {least})
  }

  // ---------------------------------------------------------------- topological order

  /** Nodes whose dependencies are all among the first `k - 1` layers. */
  ghost function Layer<T(!new)>(deps: T -> seq<T>, nodes: set<T>, k: nat): set<T> {
    if k == 0 then {} else set n | n in nodes && forall d :: d in deps(n) ==> d in Layer(deps, nodes, k - 1)
  }

  lemma {:induction false} LayersGrow<T(!new)>(deps: T -> seq<T>, nodes: set<T>, k: nat)
    ensures Layer(deps, nodes, k) <= Layer(deps, nodes, k + 1)
  {
    if k > 0 {
      LayersGrow(deps, nodes, k - 1);
    }
  }

  lemma {:induction false} LayersGrowAll<T(!new)>(deps: T -> seq<T>, nodes: set<T>, j: nat, k: nat)
    requires j <= k
    ensures Layer(deps, nodes, j) <= Layer(deps, nodes, k)
    decreases k - j
  {
    if j < k {
      LayersGrow(deps, nodes, j);
      LayersGrowAll(deps, nodes, j + 1, k);
    }
  }

  /** With edges that strictly descend in rank every node lies in the layer of its rank. */
  lemma {:induction false} DescendingNodesHaveLayers<T(!new)>(deps: T -> seq<T>, nodes: set<T>, rank: T -> nat, n: T)
    requires Closed(deps, nodes) && n in nodes
    requires forall x, d :: x in nodes && d in deps(x) ==> rank(d) < rank(x)
    ensures n in Layer(deps, nodes, rank(n) + 1)
    decreases rank(n)
  {
    forall d | d in deps(n) ensures d in Layer(deps, nodes, rank(n)) {
      DescendingNodesHaveLayers(deps, nodes, rank, d);
      LayersGrowAll(deps, nodes, rank(d) + 1, rank(n));
    }
  }

  /** The first layer that holds a node. */
  lemma FirstLayer<T(!new)>(deps: T -> seq<T>, nodes: set<T>, n: T, k: nat) returns (first: nat)
    requires n in Layer(deps, nodes, k)
    ensures 0 < first && n in Layer(deps, nodes, first) && n !in Layer(deps, nodes, first - 1)
  {
    first := k;
    while n in Layer(deps, nodes, first - 1)
      invariant 0 < first && n in Layer(deps, nodes, first)
      decreases first
    {
      first := first - 1;
    }
  }

  /** A node in a layer has its dependencies one layer down. */
  lemma LayerBelow<T(!new)>(deps: T -> seq<T>, nodes: set<T>, k: nat, n: T, d: T)
    requires n in Layer(deps, nodes, k) && d in deps(n)
    ensures 0 < k && d in Layer(deps, nodes, k - 1)
  {
  }

  ghost predicate NoDuplicates<T>(s: seq<T>) {
    forall i, j :: 0 <= i < j < |s| ==> s[i] != s[j]
  }

  /** Every dependency of a listed node is listed before it. */
  ghost predicate DependenciesFirst<T>(deps: T -> seq<T>, order: seq<T>) {
    forall i, d :: 0 <= i < |order| && d in deps(order[i]) ==> d in order[..i]
  }

  /** The order lists layer after layer: whatever precedes a node lies in every layer the node lies in. */
  ghost predicate LayerByLayer<T(!new)>(deps: T -> seq<T>, nodes: set<T>, order: seq<T>) {
    forall i, j, k: nat :: 0 <= i < j < |order| && order[j] in Layer(deps, nodes, k) ==>
      order[i] in Layer(deps, nodes, k)
  }

  /** Within one layer names ascend: a later node with a smaller name lies in a strictly later layer. */
  ghost predicate NamesAscendInLayers<T(!new)>(deps: T -> seq<T>, nodes: set<T>, key: T -> nat, order: seq<T>) {
    forall i, j :: 0 <= i < j < |order| ==>
      key(order[i]) < key(order[j]) || EarlierLayer(deps, nodes, order[i], order[j])
  }

  ghost predicate EarlierLayer<T(!new)>(deps: T -> seq<T>, nodes: set<T>, a: T, b: T) {
    exists k: nat :: a in Layer(deps, nodes, k) && b !in Layer(deps, nodes, k)
  }

  lemma AppendKeepsNames<T(!new)>(deps: T -> seq<T>, nodes: set<T>, key: T -> nat, ordered: seq<T>, ready: seq<T>,
                                  k: nat)
    requires forall n :: n in ordered ==> n in Layer(deps, nodes, k)
    requires forall n :: n in ready ==> n !in Layer(deps, nodes, k)
    requires Ascending(key, ready) && NamesAscendInLayers(deps, nodes, key, ordered)
    ensures NamesAscendInLayers(deps, nodes, key, ordered + ready)
  {
    var grown := ordered + ready;
    forall i, j | 0 <= i < j < |grown|
      ensures key(grown[i]) < key(grown[j]) || EarlierLayer(deps, nodes, grown[i], grown[j])
    {
      if i < |ordered| <= j {
        assert grown[i] in ordered && grown[j] in ready;
      } else if |ordered| <= i {
        assert key(ready[i - |ordered|]) < key(ready[j - |ordered|]);
      }
    }
  }

  /** What `TopologicalOrder` promises of its result. */
  ghost predicate Sequenced<T(!new)>(deps: T -> seq<T>, nodes: set<T>, order: seq<T>) {
    && NoDuplicates(order)
    && DependenciesFirst(deps, order)
    && LayerByLayer(deps, nodes, order)
  }

  /** The remaining steps whose dependencies have all been ordered. */
  function Ready<T(==)>(deps: T -> seq<T>, remaining: set<T>, ordered: seq<T>): set<T> {
    set step | step in remaining && forall d :: d in deps(step) ==> d in ordered
  }

  /** The steps in dependency order, ready steps sorted by name, or nothing on a cycle. */
  method TopologicalOrder<T(==,!new)>(deps: T -> seq<T>, nodes: set<T>, key: T -> nat) returns (order: Option<seq<T>>)
    requires Closed(deps, nodes) && Injective(key, nodes)
    ensures order.None? <==> Cyclic(deps, nodes)
    ensures order.Some? ==> (forall n :: n in order.value <==> n in nodes) && Sequenced(deps, nodes, order.value)
    ensures order.Some? ==> NamesAscendInLayers(deps, nodes, key, order.value)
  {
    var remaining := nodes;
    var ordered: seq<T> := [];
    ghost var k: nat := 0;
    while remaining != {}
      invariant remaining <= nodes
      invariant forall n :: n in ordered <==> n in nodes && n !in remaining
      invariant forall n :: n in ordered <==> n in Layer(deps, nodes, k)
      invariant Sequenced(deps, nodes, ordered)
      invariant NamesAscendInLayers(deps, nodes, key, ordered)
      decreases remaining
    {
      var readySet := Ready(deps, remaining, ordered);
      var ready := Sorted(key, readySet);
      if ready == [] {
        StuckMeansCycle(deps, nodes, remaining, ordered);
        return None;
      }
      assert ready[0] in readySet;
      OneRound(deps, nodes, key, remaining, ordered, ready, k);
      ordered := ordered + ready;
      remaining := remaining - readySet;
      k := k + 1;
    }
    SequencedHasNoCycle(deps, nodes, ordered);
    return Some(ordered);
  }

  lemma OneRound<T(!new)>(deps: T -> seq<T>, nodes: set<T>, key: T -> nat,
                          remaining: set<T>, ordered: seq<T>, ready: seq<T>, k: nat)
    requires remaining <= nodes && Ascending(key, ready) && Sequenced(deps, nodes, ordered)
    requires forall n :: n in ordered <==> n in nodes && n !in remaining
    requires forall n :: n in ordered <==> n in Layer(deps, nodes, k)
    requires forall n :: n in ready <==> n in Ready(deps, remaining, ordered)
    requires NamesAscendInLayers(deps, nodes, key, ordered)
    ensures NamesAscendInLayers(deps, nodes, key, ordered + ready)
    ensures Sequenced(deps, nodes, ordered + ready)
    ensures forall n :: n in ordered + ready <==> n in Layer(deps, nodes, k + 1)
  {
    LayersGrow(deps, nodes, k);
    assert forall n :: n in Layer(deps, nodes, k + 1) <==> n in ordered || n in ready;
    AppendKeepsDistinct(key, ordered, ready);
    AppendKeepsDependenciesFirst(deps, ordered, ready);
    AppendKeepsLayers(deps, nodes, ordered, ready, k);
    AppendKeepsNames(deps, nodes, key, ordered, ready, k);
  }

  lemma AppendKeepsDependenciesFirst<T(!new)>(deps: T -> seq<T>, ordered: seq<T>, ready: seq<T>)
    requires forall n, d :: n in ready && d in deps(n) ==> d in ordered
    requires DependenciesFirst(deps, ordered)
    ensures DependenciesFirst(deps, ordered + ready)
  {
    var grown := ordered + ready;
    forall i, d | 0 <= i < |grown| && d in deps(grown[i]) ensures d in grown[..i] {
      if i < |ordered| {
        assert d in ordered[..i];
        assert grown[..i] == ordered[..i];
      } else {
        assert grown[i] in ready;
        assert grown[..i] == ordered + ready[..i - |ordered|];
      }
    }
  }

  lemma AppendKeepsDistinct<T(!new)>(key: T -> nat, ordered: seq<T>, ready: seq<T>)
    requires forall n :: n in ready ==> n !in ordered
    requires Ascending(key, ready) && NoDuplicates(ordered)
    ensures NoDuplicates(ordered + ready)
  {
    var grown := ordered + ready;
    forall i, j | 0 <= i < j < |grown| ensures grown[i] != grown[j] {
      if i < |ordered| <= j {
        assert grown[j] in ready && grown[i] in ordered;
      } else if |ordered| <= i {
        assert key(ready[i - |ordered|]) < key(ready[j - |ordered|]);
      }
    }
  }

  lemma AppendKeepsLayers<T(!new)>(deps: T -> seq<T>, nodes: set<T>, ordered: seq<T>, ready: seq<T>, k: nat)
    requires forall n :: n in ordered ==> n in Layer(deps, nodes, k)
    requires forall n :: n in ready ==> n !in Layer(deps, nodes, k) && n in Layer(deps, nodes, k + 1)
    requires LayerByLayer(deps, nodes, ordered)
    ensures LayerByLayer(deps, nodes, ordered + ready)
  {
    var grown := ordered + ready;
    forall i, j, l: nat | 0 <= i < j < |grown| && grown[j] in Layer(deps, nodes, l)
      ensures grown[i] in Layer(deps, nodes, l)
    {
      if |ordered| <= j {
        assert grown[j] in ready;
        if l <= k {
          LayersGrowAll(deps, nodes, l, k);
        } else {
          LayersGrowAll(deps, nodes, k, l);
          LayersGrowAll(deps, nodes, k + 1, l);
          assert grown[i] in ordered || grown[i] in ready;
        }
      }
    }
  }

  // ------------------------------------------------ both directions of the cycle check

  /** Walk `n` edges without leaving the stuck region. */
  lemma {:induction false} WalkInside<T(!new)>(deps: T -> seq<T>, region: set<T>, n: nat) returns (walk: seq<T>)
    requires region != {}
    requires forall r {:trigger deps(r)} :: r in region ==> exists d :: d in deps(r) && d in region
    ensures |walk| == n + 1
    ensures forall i :: 0 <= i <= n ==> walk[i] in region
    ensures forall i, j :: 0 <= i < j <= n && j == i + 1 ==> walk[j] in deps(walk[i])
  {
    if n == 0 {
      var r :| r in region;
      walk := [r];
    } else {
      var prefix := WalkInside(deps, region, n - 1);
      var d :| d in deps(prefix[n - 1]) && d in region;
      walk := prefix + [d];
    }
  }

  /** A sequence longer than the set it draws from repeats an element. */
  lemma {:induction false} Pigeonhole<T(!new)>(s: seq<T>, region: set<T>) returns (i: nat, j: nat)
    requires forall k :: 0 <= k < |s| ==> s[k] in region
    requires |region| < |s|
    ensures i < j < |s| && s[i] == s[j]
    decreases |s|
  {
    var last := s[|s| - 1];
    if k :| 0 <= k < |s| - 1 && s[k] == last {
      i, j := k, |s| - 1;
    } else {
      i, j := Pigeonhole(s[..|s| - 1], region - {last});
    }
  }

  lemma StuckMeansCycle<T(!new)>(deps: T -> seq<T>, nodes: set<T>, remaining: set<T>, ordered: seq<T>)
    requires Closed(deps, nodes) && remaining <= nodes && remaining != {}
    requires forall n :: n in ordered <==> n in nodes && n !in remaining
    requires Ready(deps, remaining, ordered) == {}
    ensures Cyclic(deps, nodes)
  {
    forall n {:trigger deps(n)} | n in remaining ensures exists d :: d in deps(n) && d in remaining {
      assert n !in Ready(deps, remaining, ordered);
    }
    var walk := WalkInside(deps, remaining, |remaining|);
    var i, j := Pigeonhole(walk, remaining);
    var loop := walk[i..j + 1];
    assert IsPath(deps, loop) && loop[0] == loop[|loop| - 1];
    assert Reaches(deps, walk[i], walk[i]);
  }

  /** Along a path in an ordered graph positions strictly fall. */
  lemma {:induction false} PathDescends<T(!new)>(deps: T -> seq<T>, order: seq<T>, p: seq<T>, i: nat)
    requires NoDuplicates(order) && DependenciesFirst(deps, order)
    requires IsPath(deps, p) && i < |order| && order[i] == p[0]
    ensures p[|p| - 1] in order[..i]
    decreases |p|
  {
    assert p[1] in deps(p[0]);
    assert p[1] in order[..i];
    var j :| 0 <= j < i && order[j] == p[1];
    if |p| > 2 {
      var rest := p[1..];
      assert IsPath(deps, rest);
      PathDescends(deps, order, rest, j);
      assert order[..j] <= order[..i];
    }
  }

  lemma SequencedHasNoCycle<T(!new)>(deps: T -> seq<T>, nodes: set<T>, order: seq<T>)
    requires NoDuplicates(order) && DependenciesFirst(deps, order)
    requires forall n :: n in nodes ==> n in order
    ensures !Cyclic(deps, nodes)
  {
    if Cyclic(deps, nodes) {
      var n :| n in nodes && Reaches(deps, n, n);
      var i :| 0 <= i < |order| && order[i] == n;
      var p :| IsPath(deps, p) && p[0] == n && p[|p| - 1] == n;
      PathDescends(deps, order, p, i);
    }
  }
}
