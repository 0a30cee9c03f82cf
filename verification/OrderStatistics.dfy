/** Sorting, interpolated percentiles and means of real samples, and what they keep of pointwise order. */
module OrderStatistics {

  predicate Ascending(s: seq<real>) {
    forall i, j :: 0 <= i < j < |s| ==> s[i] <= s[j]
  }

  /** Every value of `a` is at most the value of `b` at the same place. */
  predicate Dominated(a: seq<real>, b: seq<real>) {
    |a| == |b| && forall i :: 0 <= i < |a| ==> a[i] <= b[i]
  }

  function Insert(x: real, s: seq<real>): (r: seq<real>)
    ensures |r| == |s| + 1
  {
    if s == [] then [x]
    else if x <= s[0] then [x] + s
    else [s[0]] + Insert(x, s[1..])
  }

  function Sort(s: seq<real>): (r: seq<real>)
    ensures |r| == |s|
  {
    if s == [] then [] else Insert(s[0], Sort(s[1..]))
  }

  lemma {:induction false} InsertPermutes(x: real, s: seq<real>)
    ensures multiset(Insert(x, s)) == multiset(s) + multiset{x}
  {
    if s != [] && s[0] < x {
      InsertPermutes(x, s[1..]);
      assert s == [s[0]] + s[1..];
      assert Insert(x, s) == [s[0]] + Insert(x, s[1..]);
    } else {
      assert Insert(x, s) == [x] + s;
    }
  }

  predicate AtLeast(s: seq<real>, low: real) {
    forall i :: 0 <= i < |s| ==> low <= s[i]
  }

  lemma {:induction false} InsertAtLeast(x: real, s: seq<real>, low: real)
    requires low <= x && AtLeast(s, low)
    ensures AtLeast(Insert(x, s), low)
  {
    if s != [] && s[0] < x { InsertAtLeast(x, s[1..], low); }
  }

  lemma AscendingCons(x: real, s: seq<real>)
    requires Ascending(s) && AtLeast(s, x)
    ensures Ascending([x] + s)
  {
  }

  lemma {:induction false} InsertAscends(x: real, s: seq<real>)
    requires Ascending(s)
    ensures Ascending(Insert(x, s))
  {
    if s == [] {
    } else if x <= s[0] {
      AscendingCons(x, s);
    } else {
      InsertAscends(x, s[1..]);
      InsertAtLeast(x, s[1..], s[0]);
      AscendingCons(s[0], Insert(x, s[1..]));
    }
  }

  /** Sorting rearranges the samples into ascending order. */
  lemma {:induction false} SortSorts(s: seq<real>)
    ensures Ascending(Sort(s)) && multiset(Sort(s)) == multiset(s)
  {
    if s != [] {
      SortSorts(s[1..]);
      InsertPermutes(s[0], Sort(s[1..]));
      InsertAscends(s[0], Sort(s[1..]));
      assert s == [s[0]] + s[1..];
    }
  }

  lemma SortContains(s: seq<real>, i: nat)
    requires i < |s|
    ensures Sort(s)[i] in s
  {
    SortSorts(s);
    assert Sort(s)[i] in multiset(Sort(s));
  }

  function Smaller(x: real, y: real): real {
    if x <= y then x else y
  }

  function Larger(x: real, y: real): real {
    if x <= y then y else x
  }

  lemma ConsDominated(x: real, a: seq<real>, y: real, b: seq<real>)
    requires x <= y && Dominated(a, b)
    ensures Dominated([x] + a, [y] + b)
  {
  }

  lemma {:induction false} InsertDominated(x: real, a: seq<real>, y: real, b: seq<real>)
    requires x <= y && Ascending(a) && Ascending(b) && Dominated(a, b)
    ensures Dominated(Insert(x, a), Insert(y, b))
    decreases |a|
  {
    if a != [] {
      var u, v := Larger(x, a[0]), Larger(y, b[0]);
      InsertDominated(u, a[1..], v, b[1..]);
      InsertHead(x, a);
      InsertHead(y, b);
      ConsDominated(Smaller(x, a[0]), Insert(u, a[1..]), Smaller(y, b[0]), Insert(v, b[1..]));
    }
  }

  /** Inserting puts the smaller of the two heads first and inserts the larger into the rest. */
  lemma InsertHead(x: real, s: seq<real>)
    requires s != [] && Ascending(s)
    ensures Insert(x, s) == [Smaller(x, s[0])] + Insert(Larger(x, s[0]), s[1..])
  {
    if x <= s[0] {
      assert s == [s[0]] + s[1..];
      assert Insert(s[0], s[1..]) == s;
    }
  }

  /** Order statistics respect pointwise order. */
  lemma {:induction false} SortDominated(a: seq<real>, b: seq<real>)
    requires Dominated(a, b)
    ensures Dominated(Sort(a), Sort(b))
  {
    if a != [] {
      SortDominated(a[1..], b[1..]);
      SortSorts(a[1..]);
      SortSorts(b[1..]);
      InsertDominated(a[0], Sort(a[1..]), b[0], Sort(b[1..]));
    }
  }

  // ---------------------------------------------------------------- percentiles

  function Times(x: real, y: real): real {
    x * y
  }

  lemma TimesAscends(f: real, g: real, last: real)
    requires f <= g && 0.0 <= last
    ensures Times(f, last) <= Times(g, last)
  {
  }

  lemma TimesWithin(fraction: real, last: real)
    requires 0.0 <= fraction <= 1.0 && 0.0 <= last
    ensures 0.0 <= Times(fraction, last) <= last
  {
    TimesAscends(0.0, fraction, last);
    TimesAscends(fraction, 1.0, last);
  }

  lemma TimesCommutes(x: real, y: real)
    ensures Times(x, y) == Times(y, x)
  {
  }

  lemma TimesDistributes(f: real, a: real, b: real)
    ensures Times(f, b - a) == Times(f, b) - Times(f, a)
    ensures Times(1.0 - f, a) == a - Times(f, a)
  {
  }

  /** The position of a percentile among `n` sorted samples, counted from zero. */
  function Position(n: nat, percent: real): (position: real)
    requires 0 < n && 0.0 <= percent <= 100.0
    ensures 0.0 <= position <= (n - 1) as real
  {
    var fraction := percent / 100.0;
    var last := (n - 1) as real;
    TimesWithin(fraction, last);
    Times(fraction, last)
  }

  /** The value at a fractional position: linear between the two neighbouring samples. */
  function At(s: seq<real>, position: real): real
    requires 0 < |s| && 0.0 <= position <= (|s| - 1) as real
  {
    var low := position.Floor;
    var fraction := position - low as real;
    if low + 1 < |s| then s[low] + Times(fraction, s[low + 1] - s[low]) else s[low]
  }

  function Percentile(s: seq<real>, percent: real): real
    requires 0 < |s| && 0.0 <= percent <= 100.0
  {
    At(Sort(s), Position(|s|, percent))
  }

  lemma Between(low: real, high: real, fraction: real)
    requires low <= high && 0.0 <= fraction <= 1.0
    ensures low <= low + Times(fraction, high - low) <= high
  {
    hide Times;
    TimesWithin(fraction, high - low);
  }

  lemma BlendDominated(a: real, b: real, c: real, d: real, fraction: real)
    requires a <= c && b <= d && 0.0 <= fraction <= 1.0
    ensures a + Times(fraction, b - a) <= c + Times(fraction, d - c)
  {
    hide Times;
    TimesAscends(a, c, 1.0 - fraction);
    TimesAscends(b, d, fraction);
    TimesCommutes(a, 1.0 - fraction);
    TimesCommutes(c, 1.0 - fraction);
    TimesCommutes(b, fraction);
    TimesCommutes(d, fraction);
    TimesDistributes(fraction, a, b);
    TimesDistributes(fraction, c, d);
    TimesDistributes(fraction, c, a);
  }

  lemma AtDominated(a: seq<real>, b: seq<real>, position: real)
    requires Dominated(a, b) && 0 < |a| && 0.0 <= position <= (|a| - 1) as real
    ensures At(a, position) <= At(b, position)
  {
    hide Times;
    var low := position.Floor;
    if low + 1 < |a| { BlendDominated(a[low], a[low + 1], b[low], b[low + 1], position - low as real); }
  }

  /** A percentile never falls when samples rise. */
  lemma PercentileDominated(a: seq<real>, b: seq<real>, percent: real)
    requires Dominated(a, b) && 0 < |a| && 0.0 <= percent <= 100.0
    ensures Percentile(a, percent) <= Percentile(b, percent)
  {
    SortDominated(a, b);
    AtDominated(Sort(a), Sort(b), Position(|a|, percent));
  }

  /** The interpolated value lies between the two samples around its position. */
  lemma AtBetween(s: seq<real>, position: real)
    requires 0 < |s| && Ascending(s) && 0.0 <= position <= (|s| - 1) as real
    ensures s[position.Floor] <= At(s, position)
    ensures position.Floor + 1 < |s| ==> At(s, position) <= s[position.Floor + 1]
    ensures position.Floor + 1 == |s| ==> At(s, position) == s[position.Floor]
  {
    hide Times;
    var low := position.Floor;
    if low + 1 < |s| { Between(s[low], s[low + 1], position - low as real); }
  }

  /** A percentile lies among the samples: no bound that holds of all of them fails of it. */
  lemma PercentileWithin(s: seq<real>, percent: real)
    requires 0 < |s| && 0.0 <= percent <= 100.0
    ensures exists i, j :: 0 <= i < |s| && 0 <= j < |s| && s[i] <= Percentile(s, percent) <= s[j]
  {
    var sorted, position := Sort(s), Position(|s|, percent);
    SortSorts(s);
    AtBetween(sorted, position);
    var low := position.Floor;
    var high := if low + 1 < |s| then low + 1 else low;
    SortContains(s, low);
    SortContains(s, high);
    var i :| 0 <= i < |s| && s[i] == sorted[low];
    var j :| 0 <= j < |s| && s[j] == sorted[high];
    assert s[i] <= Percentile(s, percent) <= s[j];
  }

  lemma AtAscends(s: seq<real>, x: real, y: real)
    requires 0 < |s| && Ascending(s) && 0.0 <= x <= y <= (|s| - 1) as real
    ensures At(s, x) <= At(s, y)
  {
    hide Times;
    var low, high := x.Floor, y.Floor;
    if low == high {
      if low + 1 < |s| { TimesAscends(x - low as real, y - low as real, s[low + 1] - s[low]); }
    } else {
      AtBetween(s, x);
      AtBetween(s, y);
      assert s[low + 1] <= s[high];
    }
  }

  /** A larger percentage gives a larger value. */
  lemma PercentileAscends(s: seq<real>, p: real, q: real)
    requires 0 < |s| && 0.0 <= p <= q <= 100.0
    ensures Percentile(s, p) <= Percentile(s, q)
  {
    hide Sort, At, Times;
    SortSorts(s);
    TimesAscends(p / 100.0, q / 100.0, (|s| - 1) as real);
    AtAscends(Sort(s), Position(|s|, p), Position(|s|, q));
  }

  /** The n sorted samples stand at equal steps from 0% to 100%, and between two of them a percentile goes straight
      from the one to the other. */
  lemma PercentileInterpolates(s: seq<real>, k: nat, fraction: real, percent: real)
    requires k + 1 < |s| && 0.0 <= fraction <= 1.0
    requires percent * (|s| - 1) as real == 100.0 * (k as real + fraction)
    ensures 0.0 <= percent <= 100.0
    ensures Percentile(s, percent) == (1.0 - fraction) * Sort(s)[k] + fraction * Sort(s)[k + 1]
  {
    hide Sort, At;
    ShareOf(percent, (|s| - 1) as real, k as real + fraction);
    AtInterpolates(Sort(s), k, fraction);
  }

  lemma AtInterpolates(s: seq<real>, k: nat, fraction: real)
    requires k + 1 < |s| && 0.0 <= fraction <= 1.0
    ensures At(s, k as real + fraction) == (1.0 - fraction) * s[k] + fraction * s[k + 1]
  {
    var position := k as real + fraction;
    if fraction == 1.0 {
      assert position.Floor == k + 1 && position - (k + 1) as real == 0.0;
    } else {
      assert position.Floor == k && position - k as real == fraction;
      Blend(s[k], s[k + 1], fraction);
    }
  }

  lemma Blend(a: real, b: real, fraction: real)
    ensures a + Times(fraction, b - a) == (1.0 - fraction) * a + fraction * b
  {
  }

  lemma ShareOf(percent: real, last: real, position: real)
    requires 0.0 < last && 0.0 <= position <= last && percent * last == 100.0 * position
    ensures 0.0 <= percent <= 100.0 && Times(percent / 100.0, last) == position
  {
    var share := percent / 100.0;
    assert percent == 100.0 * share;
    assert percent * last == 100.0 * (share * last);
    SignOf(share, last);
    SignOf(1.0 - share, last);
    assert (1.0 - share) * last == last - share * last;
  }

  lemma SignOf(x: real, last: real)
    requires 0.0 < last
    ensures 0.0 <= x * last ==> 0.0 <= x
  {
    if x < 0.0 { assert x * last < 0.0; }
  }

  // ---------------------------------------------------------------- ranks

  /** How many samples lie below a value. */
  function CountBelow(s: seq<real>, x: real): nat {
    if s == [] then 0 else (if s[0] < x then 1 else 0) + CountBelow(s[1..], x)
  }

  function CountAbove(s: seq<real>, x: real): nat {
    if s == [] then 0 else (if x < s[0] then 1 else 0) + CountAbove(s[1..], x)
  }

  lemma {:induction false} InsertCounts(y: real, s: seq<real>, x: real)
    ensures CountBelow(Insert(y, s), x) == CountBelow(s, x) + if y < x then 1 else 0
    ensures CountAbove(Insert(y, s), x) == CountAbove(s, x) + if x < y then 1 else 0
  {
    if s == [] {
    } else if y <= s[0] {
      assert ([y] + s)[1..] == s;
    } else {
      InsertCounts(y, s[1..], x);
      assert ([s[0]] + Insert(y, s[1..]))[1..] == Insert(y, s[1..]);
    }
  }

  lemma {:induction false} SortCounts(s: seq<real>, x: real)
    ensures CountBelow(Sort(s), x) == CountBelow(s, x) && CountAbove(Sort(s), x) == CountAbove(s, x)
  {
    if s != [] {
      SortCounts(s[1..], x);
      InsertCounts(s[0], Sort(s[1..]), x);
    }
  }

  lemma {:induction false} FewBelow(s: seq<real>, k: nat, x: real)
    requires Ascending(s) && k < |s| && x <= s[k]
    ensures CountBelow(s, x) <= k
    decreases |s|
  {
    if k == 0 {
      NoneBelow(s, x);
    } else {
      FewBelow(s[1..], k - 1, x);
    }
  }

  lemma {:induction false} NoneBelow(s: seq<real>, x: real)
    requires AtLeast(s, x)
    ensures CountBelow(s, x) == 0
  {
    if s != [] { NoneBelow(s[1..], x); }
  }

  lemma {:induction false} FewAbove(s: seq<real>, k: nat, x: real)
    requires Ascending(s) && k < |s| && s[k] <= x
    ensures CountAbove(s, x) <= |s| - 1 - k
    decreases |s|
  {
    if k == 0 {
      AtMostAllAbove(s[1..], x);
    } else {
      FewAbove(s[1..], k - 1, x);
    }
  }

  lemma {:induction false} AtMostAllAbove(s: seq<real>, x: real)
    ensures CountAbove(s, x) <= |s|
  {
    if s != [] { AtMostAllAbove(s[1..], x); }
  }

  /** A percentile by rank: at most the given share of the other samples lies below it, counted up to a whole
      sample, and at most the remaining share above it. */
  lemma PercentileRank(s: seq<real>, percent: real)
    requires 0 < |s| && 0.0 <= percent <= 100.0
    ensures var position, value := Position(|s|, percent), Percentile(s, percent);
            && CountBelow(s, value) as real < position + 1.0
            && CountAbove(s, value) as real < (|s| - 1) as real - position + 1.0
  {
    hide Sort, At, Times, CountBelow, CountAbove;
    var sorted, position := Sort(s), Position(|s|, percent);
    SortSorts(s);
    AtBetween(sorted, position);
    var low, value := position.Floor, Percentile(s, percent);
    SortCounts(s, value);
    FewAbove(sorted, low, value);
    if low + 1 < |s| {
      AtBelowCeiling(sorted, position);
    } else {
      FewBelow(sorted, low, value);
    }
  }

  /** At a whole position the value is that sample; otherwise it is below the next one. */
  lemma AtBelowCeiling(s: seq<real>, position: real)
    requires 0 < |s| && Ascending(s) && 0.0 <= position <= (|s| - 1) as real && position.Floor + 1 < |s|
    ensures CountBelow(s, At(s, position)) as real < position + 1.0
  {
    hide CountBelow, Times;
    var low := position.Floor;
    if position == low as real {
      TimesZeroOne(s[low + 1] - s[low]);
      FewBelow(s, low, At(s, position));
    } else {
      AtBetween(s, position);
      FewBelow(s, low + 1, At(s, position));
    }
  }

  lemma TimesZeroOne(x: real)
    ensures Times(0.0, x) == 0.0 && Times(1.0, x) == x
  {
  }

  // ---------------------------------------------------------------- means

  function Sum(s: seq<real>): real {
    if s == [] then 0.0 else s[0] + Sum(s[1..])
  }

  function Mean(s: seq<real>): real
    requires 0 < |s|
  {
    Sum(s) / |s| as real
  }

  /** A sum is what one value is, and what the sums of two parts add up to. */
  lemma {:induction false} SumAdds(a: seq<real>, b: seq<real>)
    ensures Sum(a + b) == Sum(a) + Sum(b)
    ensures forall x :: Sum([x]) == x
  {
    if a == [] {
      assert a + b == b;
    } else {
      SumAdds(a[1..], b);
      assert (a + b)[1..] == a[1..] + b;
    }
  }

  lemma RemoveOne<T>(values: seq<T>, i: nat)
    requires i < |values|
    ensures multiset(values[..i] + values[i + 1..]) == multiset(values) - multiset{values[i]}
  {
    assert values == values[..i] + [values[i]] + values[i + 1..];
  }

  lemma SumWithout(values: seq<real>, i: nat)
    requires i < |values|
    ensures Sum(values) == values[i] + Sum(values[..i] + values[i + 1..])
  {
    hide Sum;
    var left, here, right := values[..i], [values[i]], values[i + 1..];
    SumAdds(left + here, right);
    SumAdds(left, here);
    SumAdds(left, right);
    assert values == left + here + right;
  }

  lemma {:induction false} SumPermuted(a: seq<real>, b: seq<real>)
    requires multiset(a) == multiset(b)
    ensures Sum(a) == Sum(b) && |a| == |b|
    decreases |a|
  {
    hide Sum;
    assert |multiset(a)| == |a| && |multiset(b)| == |b|;
    if a != [] {
      assert a[0] in multiset(b);
      var i :| 0 <= i < |b| && b[i] == a[0];
      RemoveOne(a, 0);
      RemoveOne(b, i);
      SumWithout(a, 0);
      SumWithout(b, i);
      SumPermuted(a[..0] + a[1..], b[..i] + b[i + 1..]);
    } else {
      assert b == [];
    }
  }

  /** The mean, taken as often as there are values, is their sum; and nothing else is. */
  lemma MeanIsMean(s: seq<real>, m: real)
    requires 0 < |s|
    ensures |s| as real * m == Sum(s) <==> m == Mean(s)
  {
    hide Sum;
    QuotientOf(Sum(s), |s| as real, m);
  }

  lemma QuotientOf(total: real, n: real, m: real)
    requires 0.0 < n
    ensures n * m == total <==> m == total / n
  {
    if n * m == total {
      assert (n * m) / n == m;
    }
  }

  /** Reordering the values leaves the mean as it is. */
  lemma MeanPermuted(a: seq<real>, b: seq<real>)
    requires multiset(a) == multiset(b) && 0 < |a|
    ensures |a| == |b| && Mean(a) == Mean(b)
  {
    hide Sum;
    SumPermuted(a, b);
  }

  lemma {:induction false} SumDominated(a: seq<real>, b: seq<real>)
    requires Dominated(a, b)
    ensures Sum(a) <= Sum(b)
  {
    if a != [] { SumDominated(a[1..], b[1..]); }
  }

  lemma {:induction false} SumAtMost(s: seq<real>, bound: real)
    requires forall i :: 0 <= i < |s| ==> s[i] <= bound
    ensures Sum(s) <= |s| as real * bound
  {
    if s != [] { SumAtMost(s[1..], bound); }
  }

  lemma {:induction false} SumAbove(s: seq<real>, bound: real)
    requires forall i :: 0 <= i < |s| ==> bound < s[i]
    ensures |s| as real * bound <= Sum(s) && (s != [] ==> |s| as real * bound < Sum(s))
  {
    if s != [] { SumAbove(s[1..], bound); }
  }

  lemma QuotientAscends(a: real, b: real, n: real)
    requires a <= b && 0.0 < n
    ensures a / n <= b / n
  {
  }

  lemma QuotientBelow(a: real, bound: real, n: real)
    requires 0.0 < n
    ensures a <= n * bound ==> a / n <= bound
    ensures n * bound < a ==> bound < a / n
  {
  }

  lemma MeanDominated(a: seq<real>, b: seq<real>)
    requires Dominated(a, b) && 0 < |a|
    ensures Mean(a) <= Mean(b)
  {
    SumDominated(a, b);
    QuotientAscends(Sum(a), Sum(b), |a| as real);
  }

  lemma MeanAtMost(s: seq<real>, bound: real)
    requires 0 < |s| && forall i :: 0 <= i < |s| ==> s[i] <= bound
    ensures Mean(s) <= bound
  {
    SumAtMost(s, bound);
    QuotientBelow(Sum(s), bound, |s| as real);
  }

  lemma MeanAbove(s: seq<real>, bound: real)
    requires 0 < |s| && forall i :: 0 <= i < |s| ==> bound < s[i]
    ensures bound < Mean(s)
  {
    SumAbove(s, bound);
    QuotientBelow(Sum(s), bound, |s| as real);
  }
}
