/** Holm's adjustment of a family of p-values, and the step-down procedure it stands for. */
module Holm {
  import opened Base
  import opened Sorting

  // ------------------------------------------------------------- specification

  /** The values that are numbers, in order. */
  function Values(p: seq<Option<real>>): (q: seq<real>) {
    if p == [] then []
    else Values(p[..|p| - 1]) + if p[|p| - 1].Some? then [p[|p| - 1].value] else []
  }

  /** How many values are at least `x`. */
  function AtLeast(q: seq<real>, x: real): (n: nat) {
    if q == [] then 0 else (if q[0] >= x then 1 else 0) + AtLeast(q[1..], x)
  }

  /** A value times the number of values no smaller. */
  function Weighted(q: seq<real>, x: real): (r: real) { AtLeast(q, x) as real * x }

  function Min(a: real, b: real): (r: real) { if a <= b then a else b }

  function Max(a: real, b: real): (r: real) { if a <= b then b else a }

  /** `b` is the largest of zero and the weighted values up to `x`. */
  ghost predicate IsPeak(q: seq<real>, x: real, b: real) {
    && b >= 0.0 && (forall y :: y in q && y <= x ==> Weighted(q, y) <= b)
    && (b == 0.0 || exists y :: y in q && y <= x && Weighted(q, y) == b)
  }

  /** The adjusted value of a hypothesis depends on its own value and the collection of all values only. */
  ghost predicate IsAdjusted(q: seq<real>, x: real, a: real) {
    exists b :: IsPeak(q, x, b) && a == Min(1.0, b)
  }

  /** Holm's step-down procedure on ascending values: how many it rejects before it stops. */
  function StepDown(q: seq<real>, alpha: real): (n: nat)
    ensures n <= |q|
  {
    if q == [] then 0
    else if q[0] < alpha / |q| as real then 1 + StepDown(q[1..], alpha)
    else 0
  }

  // ------------------------------------------------ consequences of the closed form

  lemma PeakUnique(q: seq<real>, x: real, b: real, c: real)
    requires IsPeak(q, x, b) && IsPeak(q, x, c)
    ensures b == c
  {
    hide Weighted;
  }

  /** Hypotheses with equal values get equal adjusted values, and no two answers are possible. */
  lemma AdjustedUnique(q: seq<real>, x: real, a: real, a': real)
    requires IsAdjusted(q, x, a) && IsAdjusted(q, x, a')
    ensures a == a'
  {
    hide IsPeak;
    var b :| IsPeak(q, x, b) && a == Min(1.0, b);
    var b' :| IsPeak(q, x, b') && a' == Min(1.0, b');
    PeakUnique(q, x, b, b');
  }

  lemma AdjustedMonotone(q: seq<real>, x: real, y: real, a: real, c: real)
    requires IsAdjusted(q, x, a) && IsAdjusted(q, y, c) && x <= y
    ensures a <= c
  {
    hide Weighted;
    var b :| IsPeak(q, x, b) && a == Min(1.0, b);
    var d :| IsPeak(q, y, d) && c == Min(1.0, d);
  }

  lemma {:induction false} AtLeastSelf(q: seq<real>, x: real)
    requires x in q
    ensures AtLeast(q, x) >= 1
  {
    if q[0] != x { AtLeastSelf(q[1..], x); }
  }

  /** Adjusting never lowers a p-value and never leaves the unit interval. */
  lemma AdjustedBounds(q: seq<real>, x: real, a: real)
    requires IsAdjusted(q, x, a) && x in q && 0.0 <= x <= 1.0
    ensures x <= a <= 1.0
  {
    hide Weighted;
    var b :| IsPeak(q, x, b) && a == Min(1.0, b);
    WeightedAbove(q, x);
  }

  lemma WeightedAbove(q: seq<real>, x: real)
    requires x in q && x >= 0.0
    ensures x <= Weighted(q, x)
  {
    hide AtLeast;
    AtLeastSelf(q, x);
    Stretch(AtLeast(q, x) as real, 1.0, x);
  }

  lemma Negative(b: real, x: real)
    requires b > 0.0 && x < 0.0
    ensures b * x < 0.0
  {
  }

  lemma Stretch(a: real, b: real, x: real)
    requires a >= b > 0.0 && b * x >= 0.0
    ensures a * x >= b * x
  {
    if x < 0.0 {
      Negative(b, x);
      assert false;
    }
    assert (a - b) * x >= 0.0;
  }

  // ------------------------------------------------------------ order of the list

  lemma {:induction false} AtLeastJoin(s: seq<real>, r: seq<real>, x: real)
    ensures AtLeast(s + r, x) == AtLeast(s, x) + AtLeast(r, x)
    decreases |s|
  {
    if s == [] {
      assert s + r == r;
    } else {
      assert (s + r)[1..] == s[1..] + r;
      AtLeastJoin(s[1..], r, x);
    }
  }

  lemma {:induction false} AtLeastRearranged(s: seq<real>, r: seq<real>, x: real)
    requires Rearranged(s, r)
    ensures AtLeast(s, x) == AtLeast(r, x)
    decreases |s|
  {
    if s == [] {
      RearrangedEmpty(s, r);
    } else {
      var j := DropFirst(s, r);
      AtLeastRearranged(s[1..], r[..j] + r[j + 1..], x);
      AtLeastJoin(r[..j], r[j + 1..], x);
      assert r == r[..j] + r[j..];
      AtLeastJoin(r[..j], r[j..], x);
      assert r[j..][1..] == r[j + 1..];
    }
  }

  lemma RearrangedEmpty<T>(s: seq<T>, r: seq<T>)
    requires Rearranged(s, r) && s == []
    ensures r == []
  {
    assert |multiset(r)| == |r| && |multiset(s)| == 0;
  }

  /** Listing the hypotheses in another order does not change the adjusted value of any of them. */
  lemma AdjustedRearranged(q: seq<real>, r: seq<real>, x: real, a: real)
    requires Rearranged(q, r)
    ensures IsAdjusted(q, x, a) <==> IsAdjusted(r, x, a)
  {
    hide AtLeast;
    forall y ensures (y in q <==> y in r) && AtLeast(q, y) == AtLeast(r, y) {
      RearrangedIn(q, r, y);
      AtLeastRearranged(q, r, y);
    }
    forall b ensures IsPeak(q, x, b) <==> IsPeak(r, x, b) {}
  }

  // ------------------------------------------------------------------ by rank

  ghost predicate Sorted(q: seq<real>) {
    forall i, j :: 0 <= i <= j < |q| ==> q[i] <= q[j]
  }

  /** A value times the number of ranks from its own to the last. */
  function AtRank(q: seq<real>, j: nat): (w: real)
    requires j < |q|
  {
    (|q| - j) as real * q[j]
  }

  /** The running maximum over the first `r` ranks. */
  function Running(q: seq<real>, r: nat): (b: real)
    requires r <= |q|
    ensures b >= 0.0
  {
    if r == 0 then 0.0 else Max(Running(q, r - 1), AtRank(q, r - 1))
  }

  lemma {:induction false} RunningBounds(q: seq<real>, r: nat, j: nat)
    requires j < r <= |q|
    ensures AtRank(q, j) <= Running(q, r)
    decreases r
  {
    hide AtRank;
    if j < r - 1 { RunningBounds(q, r - 1, j); }
  }

  lemma {:induction false} RunningAttained(q: seq<real>, r: nat) returns (j: nat)
    requires r <= |q| && Running(q, r) > 0.0
    ensures j < r && Running(q, r) == AtRank(q, j)
    decreases r
  {
    hide AtRank;
    if Running(q, r) == Running(q, r - 1) {
      j := RunningAttained(q, r - 1);
    } else {
      j := r - 1;
    }
  }

  /** In ascending order, the values no smaller than the first of its kind are those from there on. */
  lemma {:induction false} AtLeastFrom(q: seq<real>, f: nat)
    requires Sorted(q) && f < |q| && (f == 0 || q[f - 1] < q[f])
    ensures AtLeast(q, q[f]) == |q| - f
    decreases |q|
  {
    if f == 0 {
      AtLeastAll(q, q[0]);
    } else {
      assert q[0] < q[f] && q[1..][f - 1] == q[f];
      if f > 1 { assert q[1..][f - 2] == q[f - 1]; }
      AtLeastFrom(q[1..], f - 1);
    }
  }

  lemma {:induction false} AtLeastAll(q: seq<real>, x: real)
    requires forall i :: 0 <= i < |q| ==> q[i] >= x
    ensures AtLeast(q, x) == |q|
    decreases |q|
  {
    if q != [] { AtLeastAll(q[1..], x); }
  }

  lemma FirstOf(q: seq<real>, j: nat) returns (f: nat)
    requires Sorted(q) && j < |q|
    ensures f <= j && q[f] == q[j] && (f == 0 || q[f - 1] < q[f]) && AtLeast(q, q[j]) == |q| - f
  {
    f := j;
    while f > 0 && q[f - 1] == q[f]
      invariant f <= j && q[f] == q[j]
    {
      f := f - 1;
    }
    AtLeastFrom(q, f);
  }

  /** The weighted value of a hypothesis is its rank's, ties counting as the first of them. */
  lemma WeightedAt(q: seq<real>, j: nat) returns (f: nat)
    requires Sorted(q) && j < |q|
    ensures f <= j && q[f] == q[j] && Weighted(q, q[j]) == AtRank(q, f)
    ensures AtRank(q, j) >= 0.0 ==> AtRank(q, j) <= AtRank(q, f)
  {
    hide AtLeast, Sorted;
    f := FirstOf(q, j);
    if AtRank(q, j) >= 0.0 { Stretch((|q| - f) as real, (|q| - j) as real, q[j]); }
  }

  lemma InOrder(q: seq<real>, i: nat, j: nat)
    requires Sorted(q) && i <= j < |q|
    ensures q[i] <= q[j]
  {
  }

  /** Everything up to a hypothesis' value stays below the running maximum, ties included. */
  lemma RunningCovers(q: seq<real>, r: nat, j: nat)
    requires Sorted(q) && r < |q| && j < |q| && q[j] <= q[r]
    ensures Weighted(q, q[j]) <= Running(q, r + 1)
  {
    hide Sorted, Weighted, Running, AtRank;
    if j > r { InOrder(q, r, j); }
    var f := WeightedAt(q, if j <= r then j else r);
    RunningBounds(q, r + 1, f);
  }

  lemma RunningReached(q: seq<real>, r: nat) returns (j: nat)
    requires Sorted(q) && r < |q| && Running(q, r + 1) > 0.0
    ensures j <= r && q[j] <= q[r] && Weighted(q, q[j]) == Running(q, r + 1)
  {
    hide Sorted, Weighted, Running, AtRank;
    j := RunningAttained(q, r + 1);
    var f := WeightedAt(q, j);
    RunningBounds(q, r + 1, f);
    InOrder(q, j, r);
  }

  /** The running maximum at a hypothesis' rank is the peak of the closed form. */
  lemma RunningIsPeak(q: seq<real>, r: nat)
    requires Sorted(q) && r < |q|
    ensures IsPeak(q, q[r], Running(q, r + 1))
  {
    hide Sorted, Weighted, Running;
    var b := Running(q, r + 1);
    forall y | y in q && y <= q[r] ensures Weighted(q, y) <= b {
      var j :| 0 <= j < |q| && q[j] == y;
      RunningCovers(q, r, j);
    }
    if b != 0.0 {
      var j := RunningReached(q, r);
      assert q[j] in q;
    }
  }

  // ---------------------------------------------------------------- step-down

  ghost predicate AllBelow(q: seq<real>, r: nat, alpha: real)
    requires r < |q|
  {
    forall j :: 0 <= j <= r ==> AtRank(q, j) < alpha
  }

  /** The procedure goes past rank `r` exactly if every value up to there passes its threshold. */
  lemma {:induction false} StepDownPast(q: seq<real>, alpha: real, r: nat)
    requires r < |q|
    ensures r < StepDown(q, alpha) <==> AllBelow(q, r, alpha)
    decreases |q|
  {
    Threshold(|q|, q[0], alpha);
    assert q[0] < alpha / |q| as real <==> AtRank(q, 0) < alpha;
    hide AtRank;
    if r > 0 {
      StepDownPast(q[1..], alpha, r - 1);
      AllBelowTail(q, r, alpha);
    }
  }

  lemma AllBelowTail(q: seq<real>, r: nat, alpha: real)
    requires 0 < r < |q|
    ensures AllBelow(q, r, alpha) <==> AtRank(q, 0) < alpha && AllBelow(q[1..], r - 1, alpha)
  {
    var t := q[1..];
    forall j | 0 <= j <= r - 1 ensures AtRank(t, j) == AtRank(q, j + 1) {}
    hide AtRank;
    if AtRank(q, 0) < alpha && AllBelow(t, r - 1, alpha) {
      forall j | 0 <= j <= r ensures AtRank(q, j) < alpha {
        if j > 0 { assert AtRank(t, j - 1) < alpha; }
      }
    }
  }

  lemma Threshold(n: nat, x: real, alpha: real)
    requires n > 0
    ensures x < alpha / n as real <==> n as real * x < alpha
  {
    assert alpha / n as real * n as real == alpha;
  }

  lemma {:induction false} RunningBelow(q: seq<real>, r: nat, alpha: real)
    requires r < |q|
    ensures Running(q, r + 1) < alpha <==> alpha > 0.0 && AllBelow(q, r, alpha)
    decreases r
  {
    hide AtRank;
    if r > 0 { RunningBelow(q, r - 1, alpha); }
  }

  /** Testing adjusted values against a level rejects exactly what the step-down procedure rejects. */
  lemma AdjustedDecides(values: seq<real>, q: seq<real>, r: nat, a: real, alpha: real)
    requires Rearranged(values, q) && Sorted(q) && r < |q| && IsAdjusted(values, q[r], a) && alpha <= 1.0
    ensures a < alpha <==> alpha > 0.0 && r < StepDown(q, alpha)
  {
    hide IsPeak, Running, StepDown, AllBelow;
    AdjustedRearranged(values, q, q[r], a);
    var b :| IsPeak(q, q[r], b) && a == Min(1.0, b);
    RunningIsPeak(q, r);
    PeakUnique(q, q[r], b, Running(q, r + 1));
    RunningBelow(q, r, alpha);
    StepDownPast(q, alpha, r);
  }

  // --------------------------------------------------------------- the method

  datatype Item = Item(position: nat, p: real)

  function PValue(x: Item): (p: real) { x.p }

  function PValues(items: seq<Item>): (q: seq<real>)
    ensures |q| == |items| && forall i :: 0 <= i < |q| ==> q[i] == items[i].p
  {
    seq(|items|, i requires 0 <= i < |items| => items[i].p)
  }

  lemma {:induction false} PValuesRearranged(s: seq<Item>, r: seq<Item>)
    requires Rearranged(s, r)
    ensures Rearranged(PValues(s), PValues(r))
    decreases |s|
  {
    if s == [] {
      RearrangedEmpty(s, r);
    } else {
      var j := DropFirst(s, r);
      var rest := r[..j] + r[j + 1..];
      PValuesRearranged(s[1..], rest);
      assert PValues(s) == [s[0].p] + PValues(s[1..]);
      assert PValues(rest) == PValues(r[..j]) + PValues(r[j + 1..]);
      assert PValues(r) == PValues(r[..j]) + [r[j].p] + PValues(r[j + 1..]);
    }
  }

  /** `items` are the numbers among the first `n` entries, with where they stand. */
  ghost predicate Enumerated(p: seq<Option<real>>, n: nat, items: seq<Item>) {
    && n <= |p| && PValues(items) == Values(p[..n])
    && (forall x :: x in items ==> x.position < n && p[x.position] == Some(x.p))
    && (forall i :: 0 <= i < n && p[i].Some? ==> Item(i, p[i].value) in items)
  }

  method EnumerateValid(p: seq<Option<real>>) returns (items: seq<Item>)
    ensures Enumerated(p, |p|, items)
  {
    items := [];
    var i := 0;
    while i < |p|
      invariant 0 <= i <= |p| && Enumerated(p, i, items)
    {
      assert p[..i + 1][..i] == p[..i];
      ghost var before := items;
      if p[i].Some? {
        items := items + [Item(i, p[i].value)];
        assert PValues(items) == PValues(before) + [p[i].value];
      }
      i := i + 1;
    }
  }

  /** Entry `i` has been given its adjusted value. */
  ghost predicate Settled(p: seq<Option<real>>, q: seq<real>, a: seq<Option<real>>, i: nat) {
    i < |p| == |a| && p[i].Some? && a[i].Some? && IsAdjusted(q, p[i].value, a[i].value)
  }

  /** The whole outcome: missing values stay missing, every other entry gets its adjusted value. */
  ghost predicate IsHolm(p: seq<Option<real>>, a: seq<Option<real>>) {
    && |a| == |p|
    && forall i :: 0 <= i < |p| ==> if p[i].Some? then Settled(p, Values(p), a, i) else a[i].None?
  }

  ghost predicate PointsInto(p: seq<Option<real>>, items: seq<Item>) {
    forall k :: 0 <= k < |items| ==> items[k].position < |p| && p[items[k].position] == Some(items[k].p)
  }

  /** Down the ranks with a running maximum. */
  method FillAdjusted(p: seq<Option<real>>, sorted: seq<Item>) returns (a: seq<Option<real>>)
    requires PointsInto(p, sorted) && Sorted(PValues(sorted))
    ensures |a| == |p| && forall i :: 0 <= i < |p| && p[i].None? ==> a[i].None?
    ensures forall k :: 0 <= k < |sorted| ==> Settled(p, PValues(sorted), a, sorted[k].position)
  {
    hide IsAdjusted, Running, Sorted, IsPeak;
    ghost var q := PValues(sorted);
    var m := |sorted|;
    a := seq(|p|, i => None);
    var runningMax := 0.0;
    var rank := 0;
    assert Running(q, 0) == 0.0 by { RunningStart(q); }
    while rank < m
      invariant 0 <= rank <= m && runningMax == Running(q, rank) && |a| == |p|
      invariant forall i :: 0 <= i < |p| && p[i].None? ==> a[i].None?
      invariant forall k :: 0 <= k < rank ==> Settled(p, q, a, sorted[k].position)
    {
      var x := sorted[rank];
      var rawAdjusted := (m - rank) as real * x.p;
      runningMax := Max(runningMax, rawAdjusted);
      RunningStep(q, rank);
      RunningIsPeak(q, rank);
      AdjustedFrom(q, q[rank], runningMax);
      a := a[x.position := Some(Min(1.0, runningMax))];
      rank := rank + 1;
    }
  }

  method HolmAdjust(p: seq<Option<real>>) returns (a: seq<Option<real>>)
    ensures IsHolm(p, a)
  {
    hide IsAdjusted, Rearranged, SortedBy, Sorted, PValues, Values;
    var valid := EnumerateValid(p);
    if valid == [] {
      return seq(|p|, i => None);
    }
    var sorted := SortBy(valid, PValue);
    SortedItems(p, valid, sorted);
    a := FillAdjusted(p, sorted);
    forall i | 0 <= i < |p| && p[i].Some? ensures Settled(p, Values(p), a, i) {
      assert Item(i, p[i].value) in sorted;
      var k :| 0 <= k < |sorted| && sorted[k] == Item(i, p[i].value);
      assert Settled(p, PValues(sorted), a, sorted[k].position);
      AdjustedRearranged(Values(p), PValues(sorted), p[i].value, a[i].value);
    }
  }

  lemma RunningStart(q: seq<real>)
    ensures Running(q, 0) == 0.0
  {
  }

  lemma RunningStep(q: seq<real>, r: nat)
    requires r < |q|
    ensures Running(q, r + 1) == Max(Running(q, r), (|q| - r) as real * q[r])
  {
  }

  lemma AdjustedFrom(q: seq<real>, x: real, b: real)
    requires IsPeak(q, x, b)
    ensures IsAdjusted(q, x, Min(1.0, b))
  {
  }

  lemma SortedItems(p: seq<Option<real>>, valid: seq<Item>, sorted: seq<Item>)
    requires Enumerated(p, |p|, valid) && Rearranged(valid, sorted) && SortedBy(sorted, PValue)
    ensures Sorted(PValues(sorted)) && Rearranged(Values(p), PValues(sorted)) && PointsInto(p, sorted)
    ensures forall i :: 0 <= i < |p| && p[i].Some? ==> Item(i, p[i].value) in sorted
  {
    hide Rearranged, SortedBy, Sorted, PointsInto;
    SortedPoints(p, valid, sorted);
    SortedValues(sorted);
    PValuesRearranged(valid, sorted);
    assert p[..|p|] == p;
  }

  lemma SortedPoints(p: seq<Option<real>>, valid: seq<Item>, sorted: seq<Item>)
    requires Enumerated(p, |p|, valid) && Rearranged(valid, sorted)
    ensures PointsInto(p, sorted)
    ensures forall i :: 0 <= i < |p| && p[i].Some? ==> Item(i, p[i].value) in sorted
  {
    hide Rearranged, Values, PValues;
    forall x ensures x in valid <==> x in sorted { RearrangedIn(valid, sorted, x); }
    forall k | 0 <= k < |sorted| ensures sorted[k] in valid {}
  }

  lemma SortedValues(sorted: seq<Item>)
    requires SortedBy(sorted, PValue)
    ensures Sorted(PValues(sorted))
  {
    forall i, j | 0 <= i < j < |sorted| ensures sorted[i].p <= sorted[j].p {
      SortedAt(sorted, PValue, i, j);
    }
  }

  // ------------------------------------------------- permuting the hypotheses

  lemma {:induction false} ValuesJoin(s: seq<Option<real>>, r: seq<Option<real>>)
    ensures Values(s + r) == Values(s) + Values(r)
    decreases |r|
  {
    if r == [] {
      assert s + r == s;
    } else {
      var n := |r| - 1;
      assert (s + r)[..|s + r| - 1] == s + r[..n];
      ValuesJoin(s, r[..n]);
    }
  }

  lemma ValuesThree(a: seq<Option<real>>, x: Option<real>, b: seq<Option<real>>)
    ensures Values(a + [x] + b) == Values(a) + Values([x]) + Values(b)
  {
    hide Values;
    ValuesJoin(a + [x], b);
    ValuesJoin(a, [x]);
  }

  lemma {:induction false} ValuesRearranged(s: seq<Option<real>>, r: seq<Option<real>>)
    requires Rearranged(s, r)
    ensures Rearranged(Values(s), Values(r))
    decreases |s|
  {
    hide Rearranged;
    if s == [] {
      RearrangedEmpty(s, r);
      RearrangedSelf(Values(s));
    } else {
      hide Values;
      var j := DropFirst(s, r);
      var a, b := r[..j], r[j + 1..];
      ValuesRearranged(s[1..], a + b);
      ValuesJoin(a, b);
      AddBack(Values(s[1..]), Values([s[0]]), Values(a), Values(b));
      CutAt(r, j);
      ValuesThree(a, r[j], b);
      CutAt(s, 0);
      ValuesThree([], s[0], s[1..]);
      assert Values([]) == [] by { ValuesNone(); }
      assert s[..0] == [] && [] + Values([s[0]]) == Values([s[0]]);
    }
  }

  lemma ValuesNone()
    ensures Values([]) == []
  {
  }

  lemma RearrangedSelf<T>(s: seq<T>)
    ensures Rearranged(s, s)
  {
  }

  /** Permuting the list permutes the answer: equal entries get equal answers wherever they stand. */
  lemma PermutationCommutes(p: seq<Option<real>>, a: seq<Option<real>>, p': seq<Option<real>>, a': seq<Option<real>>,
                            i: nat, j: nat)
    requires IsHolm(p, a) && IsHolm(p', a') && Rearranged(p, p')
    requires i < |p| && j < |p'| && p[i] == p'[j]
    ensures a[i] == a'[j]
  {
    hide Values, IsAdjusted;
    if p[i].Some? {
      assert Settled(p, Values(p), a, i) && Settled(p', Values(p'), a', j);
      ValuesRearranged(p, p');
      AdjustedRearranged(Values(p), Values(p'), p[i].value, a[i].value);
      AdjustedUnique(Values(p'), p[i].value, a[i].value, a'[j].value);
    }
  }
}
