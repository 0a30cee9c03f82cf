/** The memoized recursive search behind marker verification, over any acyclic graph of checks. */
module MemoizedSearch {
  import opened Results

  /** What a search returns for one node, or that an exception left it. */
  datatype Verdict = Valid | Invalid | Raised

  /** A graph of checks. `deps` and `local` may raise; `rank` witnesses that the edges are acyclic. */
  datatype Checks<!T> = Checks(admits: T -> bool, deps: T -> Option<seq<T>>, local: T -> Verdict, rank: T -> nat)

  ghost predicate Acyclic<T(!new)>(checks: Checks<T>) {
    forall n, d {:trigger checks.deps(n), checks.rank(d)} ::
      checks.deps(n).Some? && d in checks.deps(n).value ==> checks.rank(d) < checks.rank(n)
  }

  /** The recursive definition: all dependencies are valid, first failure first, and then the node itself. */
  ghost function Judge<T(!new)>(checks: Checks<T>, n: T): Verdict
    requires Acyclic(checks)
    decreases checks.rank(n), 1, 0
  {
    if !checks.admits(n) then Invalid
    else match checks.deps(n)
      case None => Raised
      case Some(ds) =>
        var first := JudgeAll(checks, n, ds);
        if first.Valid? then checks.local(n) else first
  }

  ghost function JudgeAll<T(!new)>(checks: Checks<T>, n: T, ds: seq<T>): Verdict
    requires Acyclic(checks)
    requires forall d :: d in ds ==> checks.rank(d) < checks.rank(n)
    decreases checks.rank(n), 0, |ds|
  {
    if ds == [] then Valid
    else match Judge(checks, ds[0])
      case Valid => JudgeAll(checks, n, ds[1..])
      case other => other
  }

  lemma {:induction false} JudgeAllValid<T(!new)>(checks: Checks<T>, n: T, ds: seq<T>)
    requires Acyclic(checks)
    requires forall d :: d in ds ==> checks.rank(d) < checks.rank(n)
    ensures JudgeAll(checks, n, ds).Valid? <==> forall d :: d in ds ==> Judge(checks, d).Valid?
    ensures JudgeAll(checks, n, ds).Raised? ==> exists d :: d in ds && Judge(checks, d).Raised?
  {
    if ds != [] {
      JudgeAllValid(checks, n, ds[1..]);
      assert ds[0] in ds;
      assert forall d :: d in ds <==> d == ds[0] || d in ds[1..];
      if Judge(checks, ds[0]).Valid? {
        assert JudgeAll(checks, n, ds) == JudgeAll(checks, n, ds[1..]);
      }
    }
  }

  /** A node is valid exactly when it is admitted, its lookup succeeds, and it and all its dependencies check out. */
  lemma ValidMeans<T(!new)>(checks: Checks<T>, n: T)
    requires Acyclic(checks)
    ensures Judge(checks, n).Valid? <==>
              && checks.admits(n)
              && checks.deps(n).Some?
              && (forall d :: d in checks.deps(n).value ==> Judge(checks, d).Valid?)
              && checks.local(n).Valid?
  {
    if checks.deps(n).Some? {
      JudgeAllValid(checks, n, checks.deps(n).value);
    }
  }

  /** An answer the memo may hold once the search of its node has finished. */
  ghost predicate Settled<T(!new)>(checks: Checks<T>, entries: map<T, bool>, n: T)
    requires Acyclic(checks) && n in entries
  {
    !Judge(checks, n).Raised? && (entries[n] <==> Judge(checks, n).Valid?)
  }

  ghost predicate AllSettled<T(!new)>(checks: Checks<T>, entries: map<T, bool>)
    requires Acyclic(checks)
  {
    forall n :: n in entries ==> Settled(checks, entries, n)
  }

  /** Every entry is an answer, or the False that seeds a search still in progress above rank `height`. */
  ghost predicate SettledBelow<T(!new)>(checks: Checks<T>, entries: map<T, bool>, height: nat)
    requires Acyclic(checks)
  {
    forall n :: n in entries && checks.rank(n) <= height ==> Settled(checks, entries, n)
  }

  /** The dictionary that one or many searches share. */
  class Memo<T(==,!new)> {
    var entries: map<T, bool>

    constructor ()
      ensures entries == map[]
    {
      entries := map[];
    }

    /** Search one node. The node is seeded with False before its dependencies are searched. */
    method Search(checks: Checks<T>, n: T) returns (verdict: Verdict)
      requires Acyclic(checks)
      requires SettledBelow(checks, entries, checks.rank(n))
      modifies this
      ensures verdict == Judge(checks, n)
      ensures forall k :: k in old(entries) ==> k in entries && entries[k] == old(entries)[k]
      ensures !verdict.Raised? ==> forall k :: k in entries && k !in old(entries) ==> Settled(checks, entries, k)
      decreases checks.rank(n)
    {
      if !checks.admits(n) {
        return Invalid;
      }
      if n in entries {
        return if entries[n] then Valid else Invalid;
      }
      entries := entries[n := false];
      var deps := checks.deps(n);
      if deps.None? {
        return Raised;
      }
      var i := 0;
      while i < |deps.value|
        invariant 0 <= i <= |deps.value|
        invariant JudgeAll(checks, n, deps.value) == JudgeAll(checks, n, deps.value[i..])
        invariant n in entries && !entries[n] && n !in old(entries)
        invariant forall k :: k in old(entries) ==> k in entries && entries[k] == old(entries)[k]
        invariant forall k :: k in entries && k !in old(entries) && k != n ==> Settled(checks, entries, k)
      {
        var d := deps.value[i];
        assert checks.rank(d) < checks.rank(n);
        label before:
        var answer := Search(checks, d);
        assert forall k :: k in old@before(entries) ==> entries[k] == old@before(entries)[k];
        if !answer.Valid? {
          return answer;
        }
        assert deps.value[i..][1..] == deps.value[i + 1..];
        i := i + 1;
      }
      var local := checks.local(n);
      if local.Raised? {
        return Raised;
      }
      entries := entries[n := local.Valid?];
      return local;
    }

    /** One memo shared by many roots: stop at the first root that is not valid. */
    method SearchAll(checks: Checks<T>, roots: seq<T>) returns (verdict: Verdict)
      requires Acyclic(checks) && AllSettled(checks, entries)
      modifies this
      ensures verdict.Valid? <==> forall r :: r in roots ==> Judge(checks, r).Valid?
      ensures !verdict.Valid? ==>
                exists i :: 0 <= i < |roots| && Judge(checks, roots[i]) == verdict
                            && forall j :: 0 <= j < i ==> Judge(checks, roots[j]).Valid?
      ensures !verdict.Raised? ==> AllSettled(checks, entries)
    {
      var i := 0;
      while i < |roots|
        invariant 0 <= i <= |roots|
        invariant forall j :: 0 <= j < i ==> Judge(checks, roots[j]).Valid?
        invariant AllSettled(checks, entries)
      {
        label before:
        verdict := Search(checks, roots[i]);
        if !verdict.Valid? {
          return;
        }
        i := i + 1;
      }
      return Valid;
    }
  }
}
